/**
 * Clean-up of the model's answer before it is parsed (index.py lines 136-139):
 * the body of a "```json" fence, else the body of a plain "```" fence, else the
 * answer untouched.
 */
module Fences {
  import opened Wrappers
  import opened PyStrings

  const JsonFence: string := "```json"
  const Fence: string := "```"
  /** Four backticks: the only way a closing fence can overlap a following "```json". */
  const LongRun: string := "````"

  /** Every "```json" starts with a "```". */
  lemma JsonFenceIsFence(s: string)
    ensures forall i: nat :: OccursAt(s, JsonFence, i) ==> OccursAt(s, Fence, i)
  {
    forall i: nat | OccursAt(s, JsonFence, i) ensures OccursAt(s, Fence, i) {
      assert s[i..i + 3] == s[i..i + 7][..3];
    }
  }

  /**
   * `response_content` after lines 136-139, with `ws` the whitespace that `strip()`
   * removes. Whenever any fence is present, the result holds no fence at all.
   */
  function CleanReply(reply: string, ws: char -> bool): (r: string)
    ensures !Contains(reply, Fence) ==> r == reply
    ensures Contains(reply, Fence) ==> !Contains(r, Fence)
  {
    JsonFenceIsFence(reply);
    if Contains(reply, JsonFence) then
      var body := Split(Split(reply, JsonFence)[1], Fence)[0];
      StripKeepsAbsent(body, Fence, ws);
      Strip(body, ws)
    else if Contains(reply, Fence) then
      var body := Split(Split(reply, Fence)[1], Fence)[0];
      StripKeepsAbsent(body, Fence, ws);
      Strip(body, ws)
    else
      reply
  }

  /** The text after the first occurrence of `open`. */
  function After(s: string, open: string): string
    requires Contains(s, open)
  {
    s[Find(s, open).value + |open|..]
  }

  /** The text before the first "```", or all of `s` when there is none. */
  function UpToFence(s: string): string
  {
    match Find(s, Fence)
    case None => s
    case Some(m) => s[..m]
  }

  /** `rest[..e]` holds no fence and is followed by a fence or by the end of `rest`. */
  ghost predicate FencedBody(rest: string, e: nat) {
    e <= |rest| && !Contains(rest[..e], Fence) && (e == |rest| || OccursAt(rest, Fence, e))
  }

  /** Overlapping "```" occurrences make a run of four backticks. */
  lemma OverlapMakesRun(s: string, m: nat, j: nat)
    requires OccursAt(s, Fence, m) && OccursAt(s, Fence, j) && m < j < m + 3
    ensures OccursAt(s, LongRun, m)
  {
    assert s[m] == s[m..m + 3][0] && s[m + 1] == s[m..m + 3][1] && s[m + 2] == s[m..m + 3][2];
    assert s[m + 3] == s[j..j + 3][m + 3 - j];
    assert s[m..m + 4] == LongRun;
  }

  /** What the "```json" branch keeps of the text after the opening fence, before stripping. */
  function JsonBody(rest: string): string
  {
    Split(Split(rest, JsonFence)[0], Fence)[0]
  }

  /** The text up to the first fence is a fenced body. */
  lemma UpToFenceIsBody(rest: string)
    ensures FencedBody(rest, |UpToFence(rest)|) && UpToFence(rest) == rest[..|UpToFence(rest)|]
  {
    match Find(rest, Fence) {
      case None =>
        assert rest[..|rest|] == rest;
      case Some(m) =>
        PrefixBeforeFirst(rest, Fence, m);
    }
  }

  /** Without a second "```json", the body runs to the first fence. */
  lemma JsonBodyWithoutSecond(rest: string)
    requires Find(rest, JsonFence).None?
    ensures JsonBody(rest) == UpToFence(rest)
  {
    SplitHead(rest, JsonFence);
    SplitHead(rest, Fence);
  }

  /** With a second "```json" at `j`, the body is what precedes the first fence within `rest[..j]`. */
  lemma JsonBodyBeforeSecond(rest: string, j: nat)
    requires Find(rest, JsonFence) == Some(j)
    ensures JsonBody(rest) == UpToFence(rest[..j])
  {
    SplitHead(rest, JsonFence);
    SplitHead(rest[..j], Fence);
  }

  /** Cutting `rest` at a fence and taking what precedes the first fence gives a fenced body. */
  lemma UpToFenceOfCut(rest: string, j: nat)
    requires OccursAt(rest, Fence, j)
    ensures FencedBody(rest, |UpToFence(rest[..j])|)
    ensures UpToFence(rest[..j]) == rest[..|UpToFence(rest[..j])|]
  {
    var inner := rest[..j];
    match Find(inner, Fence) {
      case Some(m') =>
        SliceOccurrences(rest, Fence, 0, j);
        assert rest[0..j] == inner;
        assert OccursAt(rest, Fence, m');
        PrefixBeforeFirst(inner, Fence, m');
        assert inner[..m'] == rest[..m'];
      case None =>
        assert inner[..|inner|] == inner;
    }
  }

  /**
   * Cutting `rest` at a fence at `j` changes what precedes the first fence only when
   * the first fence overlaps the one at `j`, making a run of four backticks.
   */
  lemma UpToFenceOfCutExact(rest: string, j: nat)
    requires OccursAt(rest, Fence, j)
    ensures Find(rest, Fence).Some?
    ensures || UpToFence(rest[..j]) == UpToFence(rest)
            || OccursAt(rest, LongRun, Find(rest, Fence).value)
  {
    assert Contains(rest, Fence);
    var m := Find(rest, Fence).value;
    var inner := rest[..j];
    SliceOccurrences(rest, Fence, 0, j);
    assert rest[0..j] == inner;
    if m + 3 <= j {
      assert inner[m..m + 3] == rest[m..m + 3];
      assert OccursAt(inner, Fence, m);
      assert Find(inner, Fence) == Some(m);
    } else if m < j {
      OverlapMakesRun(rest, m, j);
    } else {
      assert m == j;
      assert Find(inner, Fence).None?;
    }
  }

  /** With a second "```json" at `j`, the body ends at a fence at or before `j`. */
  lemma JsonBodyWithSecond(rest: string, j: nat)
    requires Find(rest, JsonFence) == Some(j)
    ensures FencedBody(rest, |JsonBody(rest)|) && JsonBody(rest) == rest[..|JsonBody(rest)|]
    ensures || JsonBody(rest) == UpToFence(rest)
            || (Find(rest, Fence).Some? && OccursAt(rest, LongRun, Find(rest, Fence).value))
  {
    JsonFenceIsFence(rest);
    JsonBodyBeforeSecond(rest, j);
    UpToFenceOfCut(rest, j);
    UpToFenceOfCutExact(rest, j);
  }

  /**
   * The "```json" branch: the result is the stripped text that follows the first
   * "```json", up to a "```" (or the end) and holding no "```". Exactly: the text
   * up to the first "```" after the opening fence, or, when a second "```json"
   * follows, the text up to the first "```" before that second one. The two agree
   * unless the first "```" starts a run of four backticks overlapping the second
   * "```json" (Python then keeps up to two of those backticks). Plain fences
   * earlier in the reply play no part.
   */
  lemma JsonBranch(reply: string, ws: char -> bool)
    requires Contains(reply, JsonFence)
    ensures exists e: nat :: FencedBody(After(reply, JsonFence), e)
                          && CleanReply(reply, ws) == Strip(After(reply, JsonFence)[..e], ws)
    ensures Find(After(reply, JsonFence), JsonFence).None? ==>
              CleanReply(reply, ws) == Strip(UpToFence(After(reply, JsonFence)), ws)
    ensures Find(After(reply, JsonFence), JsonFence).Some? ==>
              CleanReply(reply, ws)
              == Strip(UpToFence(After(reply, JsonFence)[..Find(After(reply, JsonFence), JsonFence).value]), ws)
    ensures || CleanReply(reply, ws) == Strip(UpToFence(After(reply, JsonFence)), ws)
            || (Find(After(reply, JsonFence), JsonFence).Some?
                && Find(After(reply, JsonFence), Fence).Some?
                && OccursAt(After(reply, JsonFence), LongRun, Find(After(reply, JsonFence), Fence).value))
  {
    var rest := After(reply, JsonFence);
    SplitSecond(reply, JsonFence);
    assert CleanReply(reply, ws) == Strip(JsonBody(rest), ws);
    match Find(rest, JsonFence) {
      case None =>
        JsonBodyWithoutSecond(rest);
        UpToFenceIsBody(rest);
        var e := |UpToFence(rest)|;
        assert FencedBody(rest, e) && CleanReply(reply, ws) == Strip(rest[..e], ws);
      case Some(j) =>
        JsonBodyWithSecond(rest, j);
        JsonBodyBeforeSecond(rest, j);
        var e := |JsonBody(rest)|;
        assert FencedBody(rest, e) && CleanReply(reply, ws) == Strip(rest[..e], ws);
    }
  }

  /**
   * The plain-fence branch: without "```json", the result is the stripped text
   * between the first and the second "```" (or the end of the reply).
   */
  lemma PlainBranch(reply: string, ws: char -> bool)
    requires !Contains(reply, JsonFence) && Contains(reply, Fence)
    ensures CleanReply(reply, ws) == Strip(UpToFence(After(reply, Fence)), ws)
  {
    var rest := After(reply, Fence);
    SplitSecond(reply, Fence);
    SplitHead(rest, Fence);
    var inner := Split(reply, Fence)[1];
    assert inner == UpToFence(rest);
    SplitWithout(inner, Fence);
  }

  /** No "```json" can start inside a prefix that holds none and run into a following fence. */
  lemma NoJsonFenceBefore(prefix: string, more: string)
    requires !Contains(prefix, JsonFence)
    ensures forall i: nat :: i < |prefix| ==> !OccursAt(prefix + JsonFence + more, JsonFence, i)
  {
    var s := prefix + JsonFence + more;
    forall i: nat | i < |prefix| ensures !OccursAt(s, JsonFence, i) {
      if i + 7 <= |prefix| {
        assert s[i..i + 7] == prefix[i..i + 7];
        assert !OccursAt(prefix, JsonFence, i);
      } else {
        var q := if i + 3 < |prefix| then |prefix| else i + 3;
        assert s[q] == JsonFence[q - |prefix|] == '`';
        assert JsonFence[q - i] != '`';
        assert s[i..i + 7][q - i] == s[q];
      }
    }
  }

  /** No "```" can start inside a body that holds none and does not end in a backtick. */
  lemma NoFenceBefore(body: string, more: string)
    requires !Contains(body, Fence) && (|body| == 0 || body[|body| - 1] != '`')
    ensures forall i: nat :: i < |body| ==> !OccursAt(body + Fence + more, Fence, i)
  {
    var s := body + Fence + more;
    forall i: nat | i < |body| ensures !OccursAt(s, Fence, i) {
      if i + 3 <= |body| {
        assert s[i..i + 3] == body[i..i + 3];
        assert !OccursAt(body, Fence, i);
      } else {
        assert s[|body| - 1] == body[|body| - 1];
        assert s[i..i + 3][|body| - 1 - i] == s[|body| - 1];
      }
    }
  }

  /** After a prefix without "```json", the first "```json" is the one that follows it. */
  lemma OpeningFenceAfterPrefix(prefix: string, rest: string)
    requires !Contains(prefix, JsonFence)
    ensures Contains(prefix + JsonFence + rest, JsonFence)
    ensures After(prefix + JsonFence + rest, JsonFence) == rest
  {
    var reply := prefix + JsonFence + rest;
    NoJsonFenceBefore(prefix, rest);
    assert reply[|prefix|..|prefix| + 7] == JsonFence;
    assert OccursAt(reply, JsonFence, |prefix|);
    assert Find(reply, JsonFence) == Some(|prefix|);
  }

  /** After a body without "```" that does not end in a backtick, the first "```" closes it. */
  lemma ClosingFenceAfterBody(body: string, tail: string)
    requires !Contains(body, Fence) && (|body| == 0 || body[|body| - 1] != '`')
    ensures UpToFence(body + Fence + tail) == body
    ensures Find(body + Fence + tail, Fence) == Some(|body|)
  {
    var rest := body + Fence + tail;
    NoFenceBefore(body, tail);
    assert rest[|body|..|body| + 3] == Fence;
    assert OccursAt(rest, Fence, |body|);
    assert Contains(rest, Fence);
  }

  /** A closing fence followed by anything but a backtick is not a run of four. */
  lemma ClosingFenceIsShort(body: string, tail: string)
    requires |tail| == 0 || tail[0] != '`'
    ensures !OccursAt(body + Fence + tail, LongRun, |body|)
  {
    var rest := body + Fence + tail;
    if |tail| > 0 {
      assert rest[|body| + 3] == tail[0];
      assert rest[|body|..|body| + 4][3] == rest[|body| + 3];
    }
  }

  /**
   * A reply of the usual shape, optional text, then "```json", a body, "```" and
   * optional text, cleans to the stripped body: fence removal then hands the
   * parser what an unfenced reply of just the body would give it, up to
   * surrounding whitespace.
   */
  lemma FencedJsonReply(prefix: string, body: string, tail: string, ws: char -> bool)
    requires !Contains(prefix, JsonFence)
    requires !Contains(body, Fence) && (|body| == 0 || body[|body| - 1] != '`')
    requires |tail| == 0 || tail[0] != '`'
    ensures CleanReply(prefix + JsonFence + body + Fence + tail, ws) == Strip(body, ws)
  {
    var rest := body + Fence + tail;
    assert prefix + JsonFence + body + Fence + tail == prefix + JsonFence + rest;
    OpeningFenceAfterPrefix(prefix, rest);
    ClosingFenceAfterBody(body, tail);
    ClosingFenceIsShort(body, tail);
    JsonBranch(prefix + JsonFence + rest, ws);
  }
}
