/**
 * Twitch/Models/LeftChannelArgs.cs: the user name and channel of a PART
 * line, read from the line and the ranges of its whitespace-separated
 * tokens. The first token is the `:nick!user@host` prefix of section 2.3.1
 * of RFC 1459; the last is the `#channel` parameter.
 */
module LeftChannel {
  import opened Wrappers

  /** A half-open range `[start, end)` of the line, as `System.Range`. */
  datatype Range = Range(start: nat, end: nat)

  datatype LeftChannelArgs = LeftChannelArgs(username: string, channel: string)

  /** The span slicing of the constructor throws `ArgumentOutOfRangeException`. */
  datatype SliceError = ArgumentOutOfRange

  /** The caller's ranges: at least one token, each inside the line. */
  predicate ValidRanges(line: string, ranges: seq<Range>)
  {
    |ranges| > 0 && forall i :: 0 <= i < |ranges| ==> ranges[i].start <= ranges[i].end <= |line|
  }

  function Token(line: string, r: Range): string
    requires r.start <= r.end <= |line|
  {
    line[r.start..r.end]
  }

  /** `ReadOnlySpan<char>.IndexOf`: the first position of `c`, or -1. */
  function IndexOf(s: string, c: char): (i: int)
    ensures -1 <= i < |s|
    ensures i == -1 <==> c !in s
    ensures i >= 0 ==> s[i] == c && c !in s[..i]
  {
    if |s| == 0 then -1
    else if s[0] == c then 0
    else
      var j := IndexOf(s[1..], c);
      assert j >= 0 ==> s[1..][..j] == s[1..j + 1];
      if j == -1 then -1 else j + 1
  }

  /** The first occurrence is the one with no earlier occurrence. */
  lemma IndexOfIsFirst(s: string, c: char, k: nat)
    requires k < |s| && s[k] == c && c !in s[..k]
    ensures IndexOf(s, c) == k
  {
  }

  /**
   * The constructor: `Username` is the first token from index 1 up to its
   * first `'!'`, `Channel` the last token without its first character.
   * Slicing fails when the first token has no `'!'` past index 0, or the last
   * token is empty.
   */
  function Parse(line: string, ranges: seq<Range>): (r: Result<LeftChannelArgs, SliceError>)
    requires ValidRanges(line, ranges)
    ensures
      var first := Token(line, ranges[0]);
      var last := Token(line, ranges[|ranges| - 1]);
      (r.Success? <==> '!' in first && first[0] != '!' && |last| > 0) &&
      (r.Success? ==>
        var name := r.value.username;
        && |name| + 1 < |first| && first[1..|name| + 1] == name && first[|name| + 1] == '!'
        && '!' !in name
        && last == last[..1] + r.value.channel)
  {
    var first := Token(line, ranges[0]);
    var bang := IndexOf(first, '!');
    if bang < 1 then Failure(ArgumentOutOfRange)
    else
      var last := Token(line, ranges[|ranges| - 1]);
      if |last| == 0 then Failure(ArgumentOutOfRange)
      else
        assert last == last[..1] + last[1..];
        Success(LeftChannelArgs(first[1..bang], last[1..]))
  }

  /** Only the first and the last token are read: the ones between do not matter. */
  lemma MiddleTokensIgnored(line: string, ranges: seq<Range>, line': string, ranges': seq<Range>)
    requires ValidRanges(line, ranges) && ValidRanges(line', ranges')
    requires Token(line, ranges[0]) == Token(line', ranges'[0])
    requires Token(line, ranges[|ranges| - 1]) == Token(line', ranges'[|ranges'| - 1])
    ensures Parse(line, ranges) == Parse(line', ranges')
  {
  }

  /**
   * The PART line of the handler tests,
   * `:strbhlfe!strbhlfe@strbhlfe.tmi.twitch.tv PART #lbnshlfe`, written as its
   * three tokens and separators, with the ranges of those tokens.
   */
  lemma SamplePartLine()
    ensures
      var line := ":strbhlfe" + "!strbhlfe@strbhlfe.tmi.twitch.tv" + " PART " + "#lbnshlfe";
      Parse(line, [Range(0, 41), Range(42, 46), Range(47, 56)])
        == Success(LeftChannelArgs("strbhlfe", "lbnshlfe"))
  {
    var user, host, channel := ":strbhlfe", "!strbhlfe@strbhlfe.tmi.twitch.tv", "#lbnshlfe";
    var line := user + host + " PART " + channel;
    var first := line[0..41];
    assert first == user + host;
    assert first[..9] == user;
    IndexOfIsFirst(first, '!', 9);
    assert line[47..56] == channel;
  }
}
