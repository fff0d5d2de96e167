/**
 * Twitch/TwitchClient.cs, channel names: the validation pattern
 * `^#?\w{3,25}$` (with the .NET meaning of `$`), the anonymous-login
 * pattern `^justinfan[0-9]+$` (ignoring case) and `FormatChannel`, which
 * lower-cases a valid name and adds or drops the leading '#'. `\w` is taken
 * as the ASCII letters, digits and '_'.
 */
module ChannelNames {
  import opened Wrappers

  const ChannelPrefix: char := '#'
  const AnonymousUsername: string := "justinfan123"

  predicate IsWordChar(c: char)
  {
    ('a' <= c <= 'z') || ('A' <= c <= 'Z') || ('0' <= c <= '9') || c == '_'
  }

  predicate IsDigit(c: char)
  {
    '0' <= c <= '9'
  }

  /** `ToLowerInvariant` on the ASCII letters; every other character is kept. */
  function LowerChar(c: char): (r: char)
    ensures 'A' <= c <= 'Z' ==> r as int == c as int + 32
    ensures !('A' <= c <= 'Z') ==> r == c
  {
    if 'A' <= c <= 'Z' then (c as int + 32) as char else c
  }

  function Lower(s: string): (r: string)
    ensures |r| == |s|
    ensures forall i :: 0 <= i < |s| ==> r[i] == LowerChar(s[i])
  {
    seq(|s|, i requires 0 <= i < |s| => LowerChar(s[i]))
  }

  /** The name without at most one leading '#'. */
  function StripPrefix(s: string): (r: string)
    ensures |s| > 0 && s[0] == ChannelPrefix ==> r == s[1..]
    ensures !(|s| > 0 && s[0] == ChannelPrefix) ==> r == s
  {
    if |s| > 0 && s[0] == ChannelPrefix then s[1..] else s
  }

  /** `\w{3,25}` on the whole text. */
  predicate IsWordName(s: string)
  {
    3 <= |s| <= 25 && forall i :: 0 <= i < |s| ==> IsWordChar(s[i])
  }

  /** `^#?\w{3,25}` matched up to the very end of the text. */
  predicate ChannelPatternStrict(s: string)
  {
    IsWordName(StripPrefix(s))
  }

  /**
   * `^#?\w{3,25}$` as .NET evaluates it: without `RegexOptions.Multiline`,
   * `$` matches at the end of the text and also just before a final '\n'.
   */
  predicate ChannelPatternAsWritten(s: string)
  {
    ChannelPatternStrict(s)
    || (|s| > 0 && s[|s| - 1] == '\n' && ChannelPatternStrict(s[..|s| - 1]))
  }

  /**
   * What a text passing `ChannelPatternAsWritten` looks like: 3 to 27
   * characters, an optional '#' or a word character first, word characters
   * in between, and a word character or one line feed last.
   */
  lemma ChannelPatternAsWrittenShape(s: string)
    requires ChannelPatternAsWritten(s)
    ensures 3 <= |s| <= 27
    ensures s[0] == ChannelPrefix || IsWordChar(s[0])
    ensures s[|s| - 1] == '\n' || IsWordChar(s[|s| - 1])
    ensures forall i :: 0 < i < |s| - 1 ==> IsWordChar(s[i])
  {
    if !ChannelPatternStrict(s) {
      var t := s[..|s| - 1];
      assert forall i :: 0 < i < |s| - 1 ==> s[i] == t[i];
    }
  }

  /** `^justinfan[0-9]+` ignoring (ASCII) case, matched to the end of the text. */
  predicate AnonymousPatternStrict(s: string)
  {
    |s| > 9 && Lower(s[..9]) == "justinfan" && forall i :: 9 <= i < |s| ==> IsDigit(s[i])
  }

  /** `^justinfan[0-9]+$` with `IgnoreCase`; `$` again admits a final '\n'. */
  predicate IsAnonymousLogin(username: string)
  {
    AnonymousPatternStrict(username)
    || (|username| > 0 && username[|username| - 1] == '\n' && AnonymousPatternStrict(username[..|username| - 1]))
  }

  /**
   * What an anonymous login looks like: "justinfan" in any case, then
   * digits, the last of which may be replaced by one line feed.
   */
  lemma AnonymousLoginShape(username: string)
    requires IsAnonymousLogin(username)
    ensures |username| >= 10 && Lower(username[..9]) == "justinfan"
    ensures forall i :: 9 <= i < |username| - 1 ==> IsDigit(username[i])
    ensures IsDigit(username[|username| - 1]) || username[|username| - 1] == '\n'
  {
    if !AnonymousPatternStrict(username) {
      var t := username[..|username| - 1];
      assert t[..9] == username[..9];
      assert forall i :: 9 <= i < |username| - 1 ==> username[i] == t[i];
    }
  }

  /** The username of the anonymous constructor is recognised as anonymous. */
  lemma AnonymousUsernameIsAnonymous()
    ensures IsAnonymousLogin(AnonymousUsername)
  {
    assert AnonymousUsername[..9] == "justinfan";
    assert Lower("justinfan") == "justinfan";
  }

  /** The body of `FormatChannel(channel, withHashtag, result)` once the pattern has matched. */
  function Normalise(channel: string, withHashtag: bool): (r: string)
    requires |channel| > 0
    ensures withHashtag ==> r == [ChannelPrefix] + Lower(StripPrefix(channel))
    ensures !withHashtag ==> r == Lower(StripPrefix(channel))
  {
    if withHashtag then
      if channel[0] == ChannelPrefix then
        assert Lower(channel) == [ChannelPrefix] + Lower(channel[1..]);
        Lower(channel)
      else [ChannelPrefix] + Lower(channel)
    else
      if channel[0] == ChannelPrefix then Lower(channel[1..]) else Lower(channel)
  }

  datatype FormatError = FormatException

  /**
   * `FormatChannel(channel, withHashtag)`: `FormatException` unless the
   * text matches `^#?\w{3,25}$` as .NET evaluates it; otherwise the
   * lower-cased name with exactly one leading '#', or with none. A name
   * followed by one line feed passes and keeps its line feed.
   */
  function FormatChannel(channel: string, withHashtag: bool): (r: Result<string, FormatError>)
    ensures r.Failure? <==> !ChannelPatternAsWritten(channel)
    ensures r.Success? && withHashtag ==> r.value == [ChannelPrefix] + Lower(StripPrefix(channel))
    ensures r.Success? && !withHashtag ==> r.value == Lower(StripPrefix(channel))
  {
    if !ChannelPatternAsWritten(channel) then Failure(FormatException)
    else Success(Normalise(channel, withHashtag))
  }

  /**
   * The corrected formatting: the whole text must be an optional '#' and 3
   * to 25 word characters (`\z` in place of `$`); where it succeeds it
   * agrees with `FormatChannel`.
   */
  function FormatChannelStrict(channel: string, withHashtag: bool): (r: Result<string, FormatError>)
    ensures r.Failure? <==> !ChannelPatternStrict(channel)
    ensures r.Success? ==> r == FormatChannel(channel, withHashtag)
  {
    if !ChannelPatternStrict(channel) then Failure(FormatException)
    else Success(Normalise(channel, withHashtag))
  }

  /** The validation of `FormatChannel` lets "abc\n" through, line feed included; the strict one does not. */
  lemma FormatChannelAcceptsLineFeed()
    ensures FormatChannel("abc" + "\n", true) == Success("#abc" + "\n")
    ensures FormatChannelStrict("abc" + "\n", true) == Failure(FormatException)
  {
    var s := "abc" + "\n";
    assert s[..|s| - 1] == "abc";
    assert ChannelPatternStrict("abc");
    assert !ChannelPatternStrict(s) by {
      assert s[0] == 'a' && s[3] == '\n';
      assert StripPrefix(s) == s;
      assert !IsWordChar(s[3]);
    }
    assert s[1] == 'b' && s[2] == 'c';
    assert Lower(s) == s;
    assert Normalise(s, true) == [ChannelPrefix] + s == "#abc" + "\n";
  }

  /** A lower-cased word name is still a word name, and lower-casing it again changes nothing. */
  lemma LowerWordName(s: string)
    requires IsWordName(s)
    ensures IsWordName(Lower(s)) && Lower(Lower(s)) == Lower(s)
    ensures Lower(s)[0] != ChannelPrefix
  {
  }

  /** A name that passes the strict check normalises to a strict name that normalises to itself. */
  lemma NormaliseStrict(channel: string, withHashtag: bool)
    requires ChannelPatternStrict(channel)
    ensures var x := Normalise(channel, withHashtag);
      ChannelPatternStrict(x) && Normalise(x, withHashtag) == x && '\n' !in x
  {
    var name := StripPrefix(channel);
    LowerWordName(name);
    var x := Normalise(channel, withHashtag);
    assert StripPrefix(x) == Lower(name);
    if withHashtag {
      assert x[1..] == Lower(name);
    }
  }

  /** A trailing line feed passes through normalisation unchanged. */
  lemma NormaliseLineFeed(channel: string, withHashtag: bool)
    requires |channel| > 0
    ensures Normalise(channel + "\n", withHashtag) == Normalise(channel, withHashtag) + "\n"
  {
    var s := channel + "\n";
    assert StripPrefix(s) == StripPrefix(channel) + "\n";
    assert Lower(StripPrefix(channel) + "\n") == Lower(StripPrefix(channel)) + "\n";
  }

  /** A name only the .NET `$` lets through is a strict name and a line feed, and normalises as one. */
  lemma LineFeedCase(channel: string, withHashtag: bool)
    requires ChannelPatternAsWritten(channel) && !ChannelPatternStrict(channel)
    ensures var c := channel[..|channel| - 1];
      && ChannelPatternStrict(c)
      && Normalise(channel, withHashtag) == Normalise(c, withHashtag) + "\n"
  {
    var c := channel[..|channel| - 1];
    assert channel == c + "\n";
    NormaliseLineFeed(c, withHashtag);
  }

  /**
   * What `FormatChannel` produces: a strictly valid, lower-case name (with
   * its '#' in the hashtag form), followed by the input's final line feed
   * exactly when the input has one that the strict check refused.
   */
  lemma FormattedShape(channel: string, withHashtag: bool)
    requires FormatChannel(channel, withHashtag).Success?
    ensures var x := FormatChannel(channel, withHashtag).value;
      if ChannelPatternStrict(channel) then
        ChannelPatternStrict(x) && '\n' !in x
      else
        |x| > 0 && x[|x| - 1] == '\n' && ChannelPatternStrict(x[..|x| - 1]) && '\n' !in x[..|x| - 1]
  {
    if ChannelPatternStrict(channel) {
      NormaliseStrict(channel, withHashtag);
    } else {
      var c := channel[..|channel| - 1];
      LineFeedCase(channel, withHashtag);
      NormaliseStrict(c, withHashtag);
      var x := Normalise(channel, withHashtag);
      assert x[..|x| - 1] == Normalise(c, withHashtag);
    }
  }

  /** A formatted name is a formatted name already: formatting is idempotent, line feed or not. */
  lemma FormatChannelIdempotent(channel: string, withHashtag: bool)
    requires FormatChannel(channel, withHashtag).Success?
    ensures FormatChannel(FormatChannel(channel, withHashtag).value, withHashtag)
         == FormatChannel(channel, withHashtag)
  {
    if ChannelPatternStrict(channel) {
      NormaliseStrict(channel, withHashtag);
    } else {
      var c := channel[..|channel| - 1];
      LineFeedCase(channel, withHashtag);
      NormaliseStrict(c, withHashtag);
      var y := Normalise(c, withHashtag);
      var x := y + "\n";
      assert x[..|x| - 1] == y;
      NormaliseLineFeed(y, withHashtag);
    }
  }

  /** The two forms differ by the '#' alone, and succeed or fail together. */
  lemma HashtagFormsAgree(channel: string)
    ensures FormatChannel(channel, true).Success? <==> FormatChannel(channel, false).Success?
    ensures FormatChannel(channel, true).Success? ==>
      FormatChannel(channel, true).value == [ChannelPrefix] + FormatChannel(channel, false).value
  {
  }

  /**
   * A name formatted by the corrected check is '#' (in the hashtag form) and
   * then 3 to 25 lower-case word characters: in particular it holds no line
   * break.
   */
  lemma FormattedIsClean(channel: string, withHashtag: bool)
    requires FormatChannelStrict(channel, withHashtag).Success?
    ensures var x := FormatChannelStrict(channel, withHashtag).value;
      var name := if withHashtag then x[1..] else x;
      && (withHashtag ==> |x| > 0 && x[0] == ChannelPrefix)
      && IsWordName(name)
      && (forall i :: 0 <= i < |name| ==> !('A' <= name[i] <= 'Z'))
      && '\n' !in x
  {
    LowerWordName(StripPrefix(channel));
  }

  /** A name that passes the pattern has at least three characters. */
  lemma PatternLength(channel: string)
    requires ChannelPatternAsWritten(channel)
    ensures |channel| >= 3
  {
  }

  /**
   * `FormatChannel(channel, withHashtag, result)`: writes the formatted name
   * into the scratch buffer (`channel.Length + 1` long) and returns its length.
   */
  method FormatChannelInto(channel: string, withHashtag: bool, result: array<char>) returns (r: Result<nat, FormatError>)
    requires result.Length >= |channel| + 1
    modifies result
    ensures r.Failure? <==> FormatChannel(channel, withHashtag).Failure?
    ensures r.Failure? ==> result[..] == old(result[..])
    ensures r.Success? ==> r.value <= result.Length
    ensures r.Success? ==> result[..r.value] == FormatChannel(channel, withHashtag).value
  {
    if !ChannelPatternAsWritten(channel) {
      return Failure(FormatException);
    }
    PatternLength(channel);
    var length := WriteNormalised(channel, withHashtag, result);
    r := Success(length);
  }

  /** The writing half of `FormatChannel(channel, withHashtag, result)`, once the pattern has matched. */
  method WriteNormalised(channel: string, withHashtag: bool, result: array<char>) returns (length: nat)
    requires 0 < |channel| && result.Length >= |channel| + 1
    modifies result
    ensures length <= result.Length
    ensures result[..length] == Normalise(channel, withHashtag)
  {
    var source := channel;
    var offset := 0;
    if withHashtag {
      if channel[0] != ChannelPrefix {
        result[0] := ChannelPrefix;
        offset := 1;
      }
    } else if channel[0] == ChannelPrefix {
      source := channel[1..];
    }
    for i := 0 to |source|
      invariant offset == 1 ==> result[0] == ChannelPrefix
      invariant forall j :: 0 <= j < i ==> result[offset + j] == LowerChar(source[j])
    {
      result[offset + i] := LowerChar(source[i]);
    }
    length := offset + |source|;
    assert result[offset..length] == Lower(source);
    if offset == 1 {
      assert result[..length] == [ChannelPrefix] + result[offset..length];
    } else {
      assert result[..length] == result[0..0 + |source|];
    }
  }
}
