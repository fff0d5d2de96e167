/**
 * Collections/CollectionHelper.cs: in-place replacement, the positions of
 * matching elements written into a caller buffer, splitting on a separator
 * (empty pieces dropped), ascending fill, an in-place shuffle and random
 * sampling. `Random.Int(0, m)` is an arbitrary choice in `[0, m]`.
 */
module CollectionHelper {
  import opened Ints
  import opened Wrappers

  /** An element of a collection of a reference or nullable type. */
  datatype Nullable<T> = Null | NonNull(value: T)

  /** `t?.Equals(item) == true`: a null element never matches, nor does a null item. */
  predicate ItemMatches<T(==)>(element: Nullable<T>, item: Nullable<T>)
  {
    element.NonNull? && item.NonNull? && element.value == item.value
  }

  // ---------------------------------------------------------------------
  // Replace
  // ---------------------------------------------------------------------

  /** Every element satisfying the condition becomes the replacement. */
  function Replaced<T>(s: seq<T>, condition: T -> bool, replacement: T): (r: seq<T>)
    ensures |r| == |s|
    ensures forall i :: 0 <= i < |s| ==> r[i] == if condition(s[i]) then replacement else s[i]
  {
    if s == [] then []
    else (Replaced(s[..|s| - 1], condition, replacement)
      + [if condition(s[|s| - 1]) then replacement else s[|s| - 1]])
  }

  /** `Replace(Span<T>, condition, replacement)`: in place, same length. */
  method Replace<T>(span: array<T>, condition: T -> bool, replacement: T)
    modifies span
    ensures span[..] == Replaced(old(span[..]), condition, replacement)
  {
    if span.Length == 0 {
      return;
    }
    for i := 0 to span.Length
      invariant forall j :: 0 <= j < i ==>
        span[j] == if condition(old(span[j])) then replacement else old(span[j])
      invariant forall j :: i <= j < span.Length ==> span[j] == old(span[j])
    {
      if condition(span[i]) {
        span[i] := replacement;
      }
    }
  }

  /** `Replace(T[] / List<T>, condition, replacement)`: a replaced copy; the original is untouched. */
  method ReplaceCopy<T>(original: array<T>, condition: T -> bool, replacement: T) returns (copy: array<T>)
    ensures fresh(copy)
    ensures copy[..] == Replaced(original[..], condition, replacement)
  {
    copy := new T[original.Length](i reads original => if 0 <= i < original.Length then original[i] else replacement);
    assert copy[..] == original[..];
    Replace(copy, condition, replacement);
  }

  // ---------------------------------------------------------------------
  // IndicesOf
  // ---------------------------------------------------------------------

  /** The positions of the elements satisfying `p`, in increasing order. */
  function IndicesWhere<T>(s: seq<T>, p: T -> bool): (r: seq<nat>)
    ensures |r| <= |s|
    ensures StrictlyIncreasing(r)
    ensures forall k :: 0 <= k < |r| ==> r[k] < |s|
  {
    if s == [] then []
    else IndicesWhere(s[..|s| - 1], p) + (if p(s[|s| - 1]) then [|s| - 1] else [])
  }

  predicate StrictlyIncreasing(r: seq<nat>)
  {
    forall i, j :: 0 <= i < j < |r| ==> r[i] < r[j]
  }

  /** `IndicesWhere` lists exactly the matching positions, each once, ascending. */
  lemma {:induction false} IndicesWhereExact<T>(s: seq<T>, p: T -> bool)
    ensures ExactCuts(s, p, IndicesWhere(s, p))
  {
    if s != [] {
      var s' := s[..|s| - 1];
      IndicesWhereExact(s', p);
      var r' := IndicesWhere(s', p);
      assert forall k :: 0 <= k < |r'| ==> s'[r'[k]] == s[r'[k]];
      assert forall i :: 0 <= i < |s'| ==> s'[i] == s[i];
    }
  }

  /** No match anywhere means no positions. */
  lemma {:induction false} IndicesWhereNone<T>(s: seq<T>, p: T -> bool)
    requires forall i :: 0 <= i < |s| ==> !p(s[i])
    ensures IndicesWhere(s, p) == []
  {
    if s != [] {
      IndicesWhereNone(s[..|s| - 1], p);
    }
  }

  /** The number of matches before position `i` bounds the slot the next match goes to. */
  lemma {:induction false} IndicesWherePrefix<T>(s: seq<T>, p: T -> bool, i: nat)
    requires i < |s|
    ensures IndicesWhere(s[..i + 1], p)
         == IndicesWhere(s[..i], p) + (if p(s[i]) then [i] else [])
  {
    assert s[..i + 1][..i] == s[..i];
  }

  /**
   * `IndicesOf(span, condition, indices)`: writes the matching positions to
   * the front of `indices` and returns how many there are. A buffer too short
   * for them makes the source throw, so the caller must supply room.
   */
  method IndicesOf<T>(span: seq<T>, condition: T -> bool, indices: array<int>) returns (n: nat)
    requires |IndicesWhere(span, condition)| <= indices.Length
    modifies indices
    ensures n <= indices.Length
    ensures indices[..n] == IndicesWhere(span, condition)
    ensures indices[n..] == old(indices[n..])
  {
    n := 0;
    if |span| == 0 {
      return 0;
    }
    for i := 0 to |span|
      invariant n <= indices.Length
      invariant indices[..n] == IndicesWhere(span[..i], condition)
      invariant indices[n..] == old(indices[n..])
    {
      IndicesWherePrefix(span, condition, i);
      IndicesWhereMonotone(span, condition, i + 1);
      if condition(span[i]) {
        indices[n] := i;
        n := n + 1;
      }
    }
    assert span[..|span|] == span;
  }

  /** The matches of a prefix are no more than those of the whole. */
  lemma {:induction false} IndicesWhereMonotone<T>(s: seq<T>, p: T -> bool, i: nat)
    requires i <= |s|
    ensures |IndicesWhere(s[..i], p)| <= |IndicesWhere(s, p)|
    decreases |s| - i
  {
    if i < |s| {
      IndicesWherePrefix(s, p, i);
      IndicesWhereMonotone(s, p, i + 1);
    } else {
      assert s[..i] == s;
    }
  }

  /**
   * `IndicesOf(span, item, indices)`: the same positions under `Equals`, but
   * written branch-free: every step stores its position at `indices[n]` and
   * only a match advances `n`. So the slot after the last match may be
   * overwritten, and every step needs `n < indices.Length`.
   */
  method IndicesOfItem<T(==)>(span: seq<Nullable<T>>, item: Nullable<T>, indices: array<int>) returns (n: nat)
    requires |span| == 0 || |IndicesWhere(span[..|span| - 1], Matcher(item))| < indices.Length
    modifies indices
    ensures n <= indices.Length
    ensures indices[..n] == IndicesWhere(span, Matcher(item))
    ensures forall j :: n < j < indices.Length ==> indices[j] == old(indices[j])
  {
    var matches := Matcher(item);
    if |span| == 0 {
      return 0;
    }
    n := 0;
    for i := 0 to |span|
      invariant n <= indices.Length
      invariant indices[..n] == IndicesWhere(span[..i], matches)
      invariant forall j :: n < j < indices.Length ==> indices[j] == old(indices[j])
      invariant i == 0 ==> indices[..] == old(indices[..])
    {
      IndicesWherePrefix(span, matches, i);
      RoomForNext(span, matches, i, indices.Length);
      indices[n] := i;
      if ItemMatches(span[i], item) {
        n := n + 1;
      }
    }
    assert span[..|span|] == span;
  }

  /** Under the precondition of `IndicesOfItem`, step `i` finds a free slot at `indices[n]`. */
  lemma RoomForNext<T>(span: seq<T>, p: T -> bool, i: nat, bufferLength: nat)
    requires i < |span| && |IndicesWhere(span[..|span| - 1], p)| < bufferLength
    ensures |IndicesWhere(span[..i], p)| < bufferLength
  {
    IndicesWhereMonotone(span[..|span| - 1], p, i);
    assert span[..|span| - 1][..i] == span[..i];
  }

  /** The simple sufficient condition: a buffer as long as the span. */
  lemma SpanLengthBufferSuffices<T>(span: seq<T>, p: T -> bool, bufferLength: nat)
    requires |span| <= bufferLength
    ensures |span| == 0 || |IndicesWhere(span[..|span| - 1], p)| < bufferLength
  {
  }

  // ---------------------------------------------------------------------
  // Split
  // ---------------------------------------------------------------------

  /** Where the piece after the cuts `cuts` starts. */
  function StartAfter(cuts: seq<nat>): nat
  {
    if cuts == [] then 0 else cuts[|cuts| - 1] + 1
  }

  predicate ValidCuts(cuts: seq<nat>, length: nat)
  {
    StrictlyIncreasing(cuts) && forall k :: 0 <= k < |cuts| ==> cuts[k] < length
  }

  /** The pieces that end at each cut: `s[0..c0)`, `s[c0+1..c1)`, ... */
  function PiecesBefore<T>(s: seq<T>, cuts: seq<nat>): (r: seq<seq<T>>)
    requires ValidCuts(cuts, |s|)
    ensures |r| == |cuts|
  {
    if cuts == [] then []
    else
      var init := cuts[..|cuts| - 1];
      PiecesBefore(s, init) + [s[StartAfter(init)..cuts[|cuts| - 1]]]
  }

  /** Every piece between the cuts, the last one running to the end. */
  function Pieces<T>(s: seq<T>, cuts: seq<nat>): seq<seq<T>>
    requires ValidCuts(cuts, |s|)
  {
    PiecesBefore(s, cuts) + [s[StartAfter(cuts)..]]
  }

  function NonEmpty<T>(pieces: seq<seq<T>>): (r: seq<seq<T>>)
    ensures forall k :: 0 <= k < |r| ==> r[k] != []
  {
    if pieces == [] then []
    else (NonEmpty(pieces[..|pieces| - 1])
      + if pieces[|pieces| - 1] == [] then [] else [pieces[|pieces| - 1]])
  }

  function Flatten<T>(pieces: seq<seq<T>>): seq<T>
  {
    if pieces == [] then [] else Flatten(pieces[..|pieces| - 1]) + pieces[|pieces| - 1]
  }

  /** The elements that do not satisfy `p`, in order. */
  function Without<T>(s: seq<T>, p: T -> bool): seq<T>
  {
    if s == [] then []
    else (Without(s[..|s| - 1], p) + if p(s[|s| - 1]) then [] else [s[|s| - 1]])
  }

  /** A piece holding no element that satisfies `p`. */
  predicate Clean<T>(piece: seq<T>, p: T -> bool)
  {
    forall j :: 0 <= j < |piece| ==> !p(piece[j])
  }

  predicate AllClean<T>(pieces: seq<seq<T>>, p: T -> bool)
  {
    forall k :: 0 <= k < |pieces| ==> Clean(pieces[k], p)
  }

  /** What `Split` returns: the non-empty pieces between separators. */
  function SplitPieces<T>(s: seq<T>, isSeparator: T -> bool): seq<seq<T>>
  {
    NonEmpty(Pieces(s, IndicesWhere(s, isSeparator)))
  }

  lemma {:induction false} WithoutAppend<T>(a: seq<T>, b: seq<T>, p: T -> bool)
    ensures Without(a + b, p) == Without(a, p) + Without(b, p)
    decreases |b|
  {
    if b == [] {
      assert a + b == a;
    } else {
      var b' := b[..|b| - 1];
      WithoutAppend(a, b', p);
      assert (a + b)[..|a + b| - 1] == a + b';
    }
  }

  lemma {:induction false} WithoutClean<T>(s: seq<T>, p: T -> bool)
    requires Clean(s, p)
    ensures Without(s, p) == s
  {
    if s != [] {
      WithoutClean(s[..|s| - 1], p);
    }
  }

  lemma {:induction false} FlattenNonEmpty<T>(pieces: seq<seq<T>>)
    ensures Flatten(NonEmpty(pieces)) == Flatten(pieces)
  {
    if pieces != [] {
      var init := pieces[..|pieces| - 1];
      FlattenNonEmpty(init);
      var last := pieces[|pieces| - 1];
      if last == [] {
        assert NonEmpty(pieces) == NonEmpty(init) + [] == NonEmpty(init);
        assert Flatten(pieces) == Flatten(init) + last == Flatten(init);
      } else {
        var ne := NonEmpty(init) + [last];
        assert ne[..|ne| - 1] == NonEmpty(init);
      }
    }
  }

  lemma {:induction false} NonEmptyAllClean<T>(pieces: seq<seq<T>>, p: T -> bool)
    requires AllClean(pieces, p)
    ensures AllClean(NonEmpty(pieces), p)
  {
    if pieces != [] {
      NonEmptyAllClean(pieces[..|pieces| - 1], p);
    }
  }

  lemma NonEmptySnoc<T>(pieces: seq<seq<T>>, piece: seq<T>)
    ensures NonEmpty(pieces + [piece]) == NonEmpty(pieces) + if piece == [] then [] else [piece]
  {
    assert (pieces + [piece])[..|pieces|] == pieces;
  }

  /** Adding one cut adds the piece that ends at it. */
  lemma PiecesBeforeStep<T>(s: seq<T>, cuts: seq<nat>, i: nat)
    requires ValidCuts(cuts, |s|) && i < |cuts|
    ensures ValidCuts(cuts[..i], |s|) && ValidCuts(cuts[..i + 1], |s|)
    ensures StartAfter(cuts[..i]) <= cuts[i] && StartAfter(cuts[..i + 1]) == cuts[i] + 1
    ensures PiecesBefore(s, cuts[..i + 1]) == PiecesBefore(s, cuts[..i]) + [s[StartAfter(cuts[..i])..cuts[i]]]
  {
    assert cuts[..i + 1][..i] == cuts[..i];
    if i > 0 {
      assert cuts[i - 1] < cuts[i];
    }
  }

  /** Every position whose element satisfies `p` is a cut. */
  predicate CutsComplete<T>(s: seq<T>, p: T -> bool, cuts: seq<nat>)
  {
    forall x :: 0 <= x < |s| && p(s[x]) ==> x in cuts
  }

  /** With every match a cut, the gap before cut `i` (or before the end) holds no match. */
  lemma GapCleanCuts<T>(s: seq<T>, p: T -> bool, cuts: seq<nat>, i: nat)
    requires ValidCuts(cuts, |s|) && CutsComplete(s, p, cuts) && i <= |cuts|
    ensures var to := if i < |cuts| then cuts[i] else |s|;
      StartAfter(cuts[..i]) <= to && Clean(s[StartAfter(cuts[..i])..to], p)
  {
    var from := StartAfter(cuts[..i]);
    var to := if i < |cuts| then cuts[i] else |s|;
    if i > 0 && i < |cuts| {
      assert cuts[i - 1] < cuts[i];
    }
    forall j | 0 <= j < to - from
      ensures !p(s[from..to][j])
    {
      var x := from + j;
      assert s[from..to][j] == s[x];
      forall k | 0 <= k < |cuts|
        ensures cuts[k] != x
      {
        if k < i {
          assert cuts[k] <= cuts[i - 1];
        } else if i < k {
          assert cuts[i] < cuts[k];
        }
      }
    }
  }

  /** The cuts are exactly the matching positions, ascending. */
  predicate ExactCuts<T>(s: seq<T>, p: T -> bool, cuts: seq<nat>)
  {
    ValidCuts(cuts, |s|) && CutsComplete(s, p, cuts)
    && forall k :: 0 <= k < |cuts| ==> p(s[cuts[k]])
  }

  /** None of the pieces before the first `i` cuts holds a match. */
  lemma {:induction false} PiecesBeforeClean<T>(s: seq<T>, p: T -> bool, cuts: seq<nat>, i: nat)
    requires ExactCuts(s, p, cuts) && i <= |cuts|
    ensures AllClean(PiecesBefore(s, cuts[..i]), p)
  {
    if i > 0 {
      PiecesBeforeClean(s, p, cuts, i - 1);
      PiecesBeforeStep(s, cuts, i - 1);
      GapCleanCuts(s, p, cuts, i - 1);
    }
  }

  /** Taking one piece and the cut after it off the front of a prefix. */
  lemma WithoutPieceAndCut<T>(s: seq<T>, p: T -> bool, from: nat, to: nat)
    requires from <= to < |s| && Clean(s[from..to], p) && p(s[to])
    ensures Without(s[..to + 1], p) == Without(s[..from], p) + s[from..to]
  {
    WithoutClean(s[from..to], p);
    assert s[..to + 1] == (s[..from] + s[from..to]) + [s[to]];
    WithoutAppend(s[..from] + s[from..to], [s[to]], p);
    WithoutAppend(s[..from], s[from..to], p);
    assert [s[to]][..0] == [];
  }

  /** The pieces before the first `i` cuts flatten to the prefix they cover, matches removed. */
  lemma {:induction false} PiecesBeforeFlatten<T>(s: seq<T>, p: T -> bool, cuts: seq<nat>, i: nat)
    requires ExactCuts(s, p, cuts) && i <= |cuts|
    ensures StartAfter(cuts[..i]) <= |s|
    ensures Flatten(PiecesBefore(s, cuts[..i])) == Without(s[..StartAfter(cuts[..i])], p)
  {
    if i > 0 {
      PiecesBeforeFlatten(s, p, cuts, i - 1);
      PiecesBeforeStep(s, cuts, i - 1);
      GapCleanCuts(s, p, cuts, i - 1);
      var from, to := StartAfter(cuts[..i - 1]), cuts[i - 1];
      WithoutPieceAndCut(s, p, from, to);
      var before := PiecesBefore(s, cuts[..i]);
      assert before[..|before| - 1] == PiecesBefore(s, cuts[..i - 1]);
    } else {
      assert s[..0] == [];
    }
  }

  /** Splitting at exact cuts: clean pieces that put back together give the input without matches. */
  lemma PiecesAtExactCuts<T>(s: seq<T>, p: T -> bool, cuts: seq<nat>)
    requires ExactCuts(s, p, cuts)
    ensures AllClean(NonEmpty(Pieces(s, cuts)), p)
    ensures Flatten(NonEmpty(Pieces(s, cuts))) == Without(s, p)
  {
    var pieces := Pieces(s, cuts);
    PiecesAllClean(s, p, cuts);
    NonEmptyAllClean(pieces, p);
    PiecesFlatten(s, p, cuts);
    FlattenNonEmpty(pieces);
  }

  /** At exact cuts every piece, the last one included, is clean. */
  lemma PiecesAllClean<T>(s: seq<T>, p: T -> bool, cuts: seq<nat>)
    requires ExactCuts(s, p, cuts)
    ensures AllClean(Pieces(s, cuts), p)
  {
    assert cuts[..|cuts|] == cuts;
    PiecesBeforeClean(s, p, cuts, |cuts|);
    GapCleanCuts(s, p, cuts, |cuts|);
  }

  /** At exact cuts the pieces put back together are the input without matches. */
  lemma PiecesFlatten<T>(s: seq<T>, p: T -> bool, cuts: seq<nat>)
    requires ExactCuts(s, p, cuts)
    ensures Flatten(Pieces(s, cuts)) == Without(s, p)
  {
    assert cuts[..|cuts|] == cuts;
    PiecesBeforeFlatten(s, p, cuts, |cuts|);
    GapCleanCuts(s, p, cuts, |cuts|);
    var from := StartAfter(cuts);
    var pieces := Pieces(s, cuts);
    assert pieces[..|pieces| - 1] == PiecesBefore(s, cuts);
    WithoutClean(s[from..], p);
    assert s == s[..from] + s[from..];
    WithoutAppend(s[..from], s[from..], p);
  }

  /**
   * The promise of `Split`: the pieces are non-empty, hold no separator, and
   * put back together they are the input with its separators removed.
   */
  lemma SplitPiecesCorrect<T>(s: seq<T>, isSeparator: T -> bool)
    ensures forall k :: 0 <= k < |SplitPieces(s, isSeparator)| ==> SplitPieces(s, isSeparator)[k] != []
    ensures AllClean(SplitPieces(s, isSeparator), isSeparator)
    ensures Flatten(SplitPieces(s, isSeparator)) == Without(s, isSeparator)
  {
    IndicesWhereExact(s, isSeparator);
    PiecesAtExactCuts(s, isSeparator, IndicesWhere(s, isSeparator));
  }

  /** Without any separator, a non-empty input is one piece: itself. */
  lemma SplitWithoutSeparator<T>(s: seq<T>, isSeparator: T -> bool)
    requires s != [] && Clean(s, isSeparator)
    ensures SplitPieces(s, isSeparator) == [s]
  {
    IndicesWhereNone(s, isSeparator);
    assert Pieces(s, []) == [s];
    assert NonEmpty([s]) == NonEmpty([]) + [s];
  }

  /** The predicate `Split` and `IndicesOf(span, item, ...)` match elements with. */
  function Matcher<T(==)>(item: Nullable<T>): Nullable<T> -> bool
  {
    e => ItemMatches(e, item)
  }

  /**
   * `Split(ReadOnlySpan<T>, separator)` as evidently intended: empty input
   * gives no pieces; an input without the separator gives itself; otherwise
   * the non-empty pieces between the positions `IndicesOf` reports, the
   * piece after the last separator included.
   */
  method Split<T(==)>(span: seq<Nullable<T>>, separator: Nullable<T>) returns (result: seq<seq<Nullable<T>>>)
    ensures result == SplitPieces(span, Matcher(separator))
  {
    if |span| == 0 {
      return [];
    }
    var indices := new int[|span|];
    var count := IndicesOfItem(span, separator, indices);
    IndicesWhereExact(span, Matcher(separator));
    if count == 0 {
      SplitWithoutSeparator(span, Matcher(separator));
      return [span];
    }
    result := PiecesBetween(span, indices, count);
  }

  /**
   * What `Split` returns as written: once a separator occurs, the piece after
   * the last one is stored one place past the counted pieces and is not
   * returned.
   */
  function SplitAsWrittenPieces<T>(s: seq<T>, isSeparator: T -> bool): seq<seq<T>>
  {
    var cuts := IndicesWhere(s, isSeparator);
    if s == [] then []
    else if cuts == [] then [s]
    else NonEmpty(PiecesBefore(s, cuts))
  }

  /**
   * `Split(ReadOnlySpan<T>, separator)` as written: the final piece is
   * written to `result[resultLength]` without counting it, and
   * `result[..resultLength]` leaves it out.
   */
  method SplitAsWritten<T(==)>(span: seq<Nullable<T>>, separator: Nullable<T>) returns (result: seq<seq<Nullable<T>>>)
    ensures result == SplitAsWrittenPieces(span, Matcher(separator))
  {
    if |span| == 0 {
      return [];
    }
    var indices := new int[|span|];
    var count := IndicesOfItem(span, separator, indices);
    if count == 0 {
      IndicesWhereExact(span, Matcher(separator));
      return [span];
    }
    result := PiecesBeforeCuts(span, indices, count);
  }

  /**
   * As written, the pieces miss exactly the non-empty piece after the last
   * separator: one separator and something after it loses that something.
   */
  lemma {:induction false} SplitAsWrittenDropsTail<T>(s: seq<T>, isSeparator: T -> bool)
    requires IndicesWhere(s, isSeparator) != []
    ensures var cuts := IndicesWhere(s, isSeparator);
      var tail := s[StartAfter(cuts)..];
      SplitPieces(s, isSeparator) == SplitAsWrittenPieces(s, isSeparator) + if tail == [] then [] else [tail]
  {
    var cuts := IndicesWhere(s, isSeparator);
    NonEmptySnoc(PiecesBefore(s, cuts), s[StartAfter(cuts)..]);
  }

  /** `[1, 0, 2]` split on `0`: as written only `[1]` comes back, and `2` is lost. */
  lemma SplitAsWrittenLosesElement()
    ensures var s := [NonNull(1), NonNull(0), NonNull(2)];
      && SplitAsWrittenPieces(s, Matcher(NonNull(0))) == [[NonNull(1)]]
      && SplitPieces(s, Matcher(NonNull(0))) == [[NonNull(1)], [NonNull(2)]]
      && Flatten(SplitAsWrittenPieces(s, Matcher(NonNull(0)))) != Without(s, Matcher(NonNull(0)))
  {
    SampleAsWritten();
    SampleCorrected();
    SampleWithout();
    assert Flatten([[NonNull(1)]]) == [NonNull(1)] by {
      assert [[NonNull(1)]][..0] == [];
    }
    assert [NonNull(1)] != [NonNull(1), NonNull(2)];
  }

  lemma SampleAsWritten()
    ensures SplitAsWrittenPieces([NonNull(1), NonNull(0), NonNull(2)], Matcher(NonNull(0))) == [[NonNull(1)]]
  {
    var s := [NonNull(1), NonNull(0), NonNull(2)];
    SampleCuts();
    var cuts: seq<nat> := [1];
    assert PiecesBefore(s, cuts) == [s[0..1]] by {
      assert cuts[..0] == [];
    }
    assert s[0..1] == [NonNull(1)];
    assert NonEmpty([[NonNull(1)]]) == [[NonNull(1)]] by {
      assert [[NonNull(1)]][..0] == [];
    }
  }

  lemma SampleCorrected()
    ensures SplitPieces([NonNull(1), NonNull(0), NonNull(2)], Matcher(NonNull(0))) == [[NonNull(1)], [NonNull(2)]]
  {
    var s := [NonNull(1), NonNull(0), NonNull(2)];
    SampleCuts();
    SampleAsWritten();
    SplitAsWrittenDropsTail(s, Matcher(NonNull(0)));
    assert s[2..] == [NonNull(2)];
  }

  lemma SampleCuts()
    ensures IndicesWhere([NonNull(1), NonNull(0), NonNull(2)], Matcher(NonNull(0))) == [1]
  {
    var s := [NonNull(1), NonNull(0), NonNull(2)];
    var p := Matcher(NonNull(0));
    assert p(s[1]) && !p(s[0]) && !p(s[2]);
    assert IndicesWhere(s[..1], p) == [] by {
      assert s[..1][..0] == [];
    }
    assert IndicesWhere(s[..2], p) == [1] by {
      assert s[..2][..1] == s[..1];
    }
    assert s[..2] == s[..|s| - 1];
  }

  lemma SampleWithout()
    ensures Without([NonNull(1), NonNull(0), NonNull(2)], Matcher(NonNull(0))) == [NonNull(1), NonNull(2)]
  {
    var s := [NonNull(1), NonNull(0), NonNull(2)];
    var p := Matcher(NonNull(0));
    assert p(s[1]) && !p(s[0]) && !p(s[2]);
    assert s[..2][..1][..0] == [];
    assert Without(s[..1], p) == [NonNull(1)];
    assert Without(s[..2], p) == [NonNull(1)];
    assert s[..2] == s[..|s| - 1];
  }

  /** The non-empty pieces between the first `count` positions in `indices`, up to the end. */
  method PiecesBetween<T>(span: seq<T>, indices: array<int>, count: nat) returns (result: seq<seq<T>>)
    requires 0 < count <= indices.Length
    requires forall k :: 0 <= k < count ==> indices[k] >= 0
    requires ValidCuts(indices[..count], |span|)
    ensures result == NonEmpty(Pieces(span, indices[..count]))
  {
    result := PiecesBeforeCuts(span, indices, count);
    var end := span[indices[count - 1] + 1..];
    NonEmptySnoc(PiecesBefore(span, indices[..count]), end);
    if |end| > 0 {
      result := result + [end];
    }
  }

  /** The loop of `Split`: the non-empty pieces that end at the first `count` positions in `indices`. */
  method PiecesBeforeCuts<T>(span: seq<T>, indices: array<int>, count: nat) returns (result: seq<seq<T>>)
    requires 0 < count <= indices.Length
    requires forall k :: 0 <= k < count ==> indices[k] >= 0
    requires ValidCuts(indices[..count], |span|)
    ensures result == NonEmpty(PiecesBefore(span, indices[..count]))
  {
    ghost var cuts: seq<nat> := indices[..count];
    result := [];
    var start := 0;
    for i := 0 to count
      invariant start == StartAfter(cuts[..i]) <= |span|
      invariant result == NonEmpty(PiecesBefore(span, cuts[..i]))
    {
      var index := indices[i];
      PiecesBeforeStep(span, cuts, i);
      var piece := span[start..index];
      NonEmptySnoc(PiecesBefore(span, cuts[..i]), piece);
      start := index + 1;
      if |piece| > 0 {
        result := result + [piece];
      }
    }
    assert cuts[..count] == cuts;
  }

  // ---------------------------------------------------------------------
  // FillAscending
  // ---------------------------------------------------------------------

  /** `FillAscending`: `span[i] = start + i` in wrapping `int` arithmetic. */
  method FillAscending(span: array<Int32>, start: Int32)
    modifies span
    ensures forall i :: 0 <= i < span.Length ==> span[i] == WrapInt32(start + i)
  {
    for i := 0 to span.Length
      invariant forall j :: 0 <= j < i ==> span[j] == WrapInt32(start + j)
    {
      span[i] := WrapInt32(start + i);
    }
  }

  // ---------------------------------------------------------------------
  // Randomness
  // ---------------------------------------------------------------------

  /** `Randomize(Span<T>)`: swaps each position with a random one; a permutation. */
  method Randomize<T>(span: array<T>)
    modifies span
    ensures multiset(span[..]) == old(multiset(span[..]))
  {
    if span.Length <= 1 {
      return;
    }
    var maxIdx := span.Length - 1;
    for i := 0 to span.Length
      invariant multiset(span[..]) == old(multiset(span[..]))
    {
      var randomIdx :| 0 <= randomIdx <= maxIdx;
      span[i], span[randomIdx] := span[randomIdx], span[i];
    }
  }

  datatype RandomCollectionError = Overflow   // `new T[length]` with a negative length

  /**
   * `RandomCollection(Span<T>, length)`: an empty array for an empty span,
   * otherwise `length` elements each drawn from the span.
   */
  method RandomCollection<T>(span: seq<T>, length: Int32) returns (r: Result<seq<T>, RandomCollectionError>)
    ensures |span| == 0 ==> r == Success([])
    ensures |span| > 0 ==> (r.Failure? <==> length < 0)
    ensures r.Success? ==> |span| == 0 || |r.value| == length
    ensures r.Success? ==> forall i :: 0 <= i < |r.value| ==> r.value[i] in span
  {
    if |span| == 0 {
      return Success([]);
    }
    if length < 0 {
      return Failure(Overflow);
    }
    var result := new T[length](_ => span[0]);
    for i := 0 to length
      invariant forall j :: 0 <= j < length ==> result[j] in span
    {
      var element := Random(span);
      result[i] := element.value;
    }
    r := Success(result[..]);
  }

  /** `Random(ReadOnlySpan<T>)`: a null reference for an empty span, else some element. */
  method Random<T>(span: seq<T>) returns (r: Option<T>)
    ensures r.None? <==> |span| == 0
    ensures r.Some? ==> r.value in span
  {
    if |span| == 0 {
      return None;
    }
    var randomIdx :| 0 <= randomIdx <= |span| - 1;
    r := Some(span[randomIdx]);
  }
}
