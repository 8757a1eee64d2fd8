/**
 * Clean-up of the generated course text before it is parsed as JSON: the
 * model's reply is trimmed, an opening "```json" or "```" fence and a closing
 * "```" fence are cut off, and the rest is trimmed again.
 */
module Fence {
  import opened Text

  const Fence: string := "```"
  const JsonFence: string := "```json"

  /** `json` is what trimming leaves of `t` once `front` leading and `back` trailing characters are cut, with at most ten and three cut. */
  ghost predicate IsCut(json: string, t: string, front: int, back: int) {
    0 <= front <= 10 && 0 <= back <= 3 && front + back <= |t| && json == Trim(t[front..|t| - back])
  }

  /** The three conditional cuts of the clean-up, between the two trims. */
  ghost function DropFences(t: string): string {
    CutClose(CutOpen(CutJsonOpen(t)))
  }

  ghost function CutJsonOpen(s: string): string {
    if StartsWith(s, JsonFence) then s[7..] else s
  }

  ghost function CutOpen(s: string): string {
    if StartsWith(s, Fence) then s[3..] else s
  }

  ghost function CutClose(s: string): string {
    if EndsWith(s, Fence) then s[..|s| - 3] else s
  }

  /**
   * `cleanJsonString`: trim, cut an opening "```json" fence, then an opening
   * "```" fence, then a closing "```" fence, each only when present, and trim again.
   */
  method CleanJsonString(content: string) returns (json: string)
    ensures NoEdgeWhitespace(json)
    ensures |json| <= |content| && Includes(content, json)
    ensures !StartsWith(Trim(content), Fence) && !EndsWith(Trim(content), Fence) ==> json == Trim(content)
    ensures |content| >= 10 && StartsWith(content, JsonFence) && EndsWith(content, Fence)
            && !StartsWith(content[7..|content| - 3], Fence)
            ==> json == Trim(content[7..|content| - 3])
    ensures exists front, back :: IsCut(json, Trim(content), front, back)
  {
    json := Trim(content);
    ghost var t := json;
    if StartsWith(json, JsonFence) {
      json := json[7..];
    }
    assert json == CutJsonOpen(t);
    ghost var afterJson := json;
    if StartsWith(json, Fence) {
      json := json[3..];
    }
    assert json == CutOpen(afterJson);
    ghost var afterOpen := json;
    if EndsWith(json, Fence) {
      json := json[..|json| - 3];
    }
    assert json == CutClose(afterOpen);
    json := Trim(json);
    CleanedReply(content);
  }

  /** What the clean-up makes of a reply: the properties `CleanJsonString` promises. */
  lemma CleanedReply(content: string)
    ensures var json := Trim(DropFences(Trim(content)));
            && NoEdgeWhitespace(json)
            && |json| <= |content| && Includes(content, json)
            && (!StartsWith(Trim(content), Fence) && !EndsWith(Trim(content), Fence) ==> json == Trim(content))
            && (|content| >= 10 && StartsWith(content, JsonFence) && EndsWith(content, Fence)
                && !StartsWith(content[7..|content| - 3], Fence)
                ==> json == Trim(content[7..|content| - 3]))
            && exists front, back :: IsCut(json, Trim(content), front, back)
  {
    var t := Trim(content);
    var json := Trim(DropFences(t));
    var front, back := DropFencesCuts(t);
    assert IsCut(json, t, front, back);
    CutIsSlice(content, json, front, back);
    if |content| >= 10 && StartsWith(content, JsonFence) && EndsWith(content, Fence)
       && !StartsWith(content[7..|content| - 3], Fence)
    {
      WrappedTrimmed(content);
      WrappedBody(content);
    }
    if !StartsWith(t, Fence) && !EndsWith(t, Fence) {
      PlainReply(t);
      TrimNoEdge(t);
    }
  }

  /** The cuts remove at most ten leading and three trailing characters. */
  lemma DropFencesCuts(t: string) returns (front: int, back: int)
    ensures 0 <= front <= 10 && 0 <= back <= 3 && front + back <= |t|
    ensures DropFences(t) == t[front..|t| - back]
  {
    front, back := 0, 0;
    var afterJson := t;
    if StartsWith(t, JsonFence) {
      afterJson := t[7..];
      front := 7;
    }
    var afterOpen := afterJson;
    if StartsWith(afterJson, Fence) {
      afterOpen := afterJson[3..];
      front := front + 3;
    }
    assert afterOpen == t[front..];
    if EndsWith(afterOpen, Fence) {
      back := 3;
    }
  }

  /** A reply without an opening or a closing fence goes through the cuts unchanged. */
  lemma PlainReply(t: string)
    requires !StartsWith(t, Fence) && !EndsWith(t, Fence)
    ensures DropFences(t) == t
  {
    JsonFenceOpensFence(t);
  }

  /** "```json" itself begins with "```". */
  lemma JsonFenceOpensFence(s: string)
    ensures StartsWith(s, JsonFence) ==> StartsWith(s, Fence)
  {
    if StartsWith(s, JsonFence) {
      assert s[..3] == JsonFence[..3];
    }
  }

  /** What the clean-up keeps is a contiguous piece of the reply. */
  lemma CutIsSlice(content: string, json: string, front: int, back: int)
    requires IsCut(json, Trim(content), front, back)
    ensures |json| <= |content|
    ensures Includes(content, json)
  {
    var t := Trim(content);
    assert |json| <= |t|;
    var before := t[front..|t| - back];
    assert Includes(t, json) by {
      SliceIncluded(t, front, |t| - back);
      TrimIncluded(before);
      IncludesTransitive(t, before, json);
    }
    assert Includes(content, t) by {
      TrimIncluded(content);
    }
    IncludesTransitive(content, t, json);
  }

  /** A reply that is a fenced JSON block has no white space at its ends. */
  lemma WrappedTrimmed(content: string)
    requires |content| >= 10 && StartsWith(content, JsonFence) && EndsWith(content, Fence)
    ensures Trim(content) == content
  {
    assert content[0] == JsonFence[0];
    assert content[|content| - 1] == Fence[2];
    TrimNoEdge(content);
  }

  /**
   * Once "```json" is cut from "```json" + body + "```", a second opening fence
   * can be found only when the body is a run of fewer than three backticks, and
   * cutting it then leaves the body again.
   */
  lemma WrappedSteps(content: string)
    requires |content| >= 10 && StartsWith(content, JsonFence) && EndsWith(content, Fence)
    requires !StartsWith(content[7..|content| - 3], Fence)
    ensures var body := content[7..|content| - 3];
            var afterJson := content[7..];
            && EndsWith(afterJson, Fence) && afterJson[..|afterJson| - 3] == body
            && (StartsWith(afterJson, Fence) ==> afterJson[3..] == body && !EndsWith(body, Fence))
  {
    var body := content[7..|content| - 3];
    var afterJson := content[7..];
    assert afterJson == body + Fence;
    if StartsWith(afterJson, Fence) {
      assert |body| < 3;
      forall i | 0 <= i < |body| ensures afterJson[3 + i] == body[i] {
        assert afterJson[i] == Fence[i] == '`';
        assert afterJson[3 + i] == Fence[3 + i - |body|] == '`';
      }
      assert afterJson[3..] == body;
    }
  }

  /** A reply that is a fenced JSON block, "```json" + body + "```", is cut down to its body. */
  lemma WrappedBody(content: string)
    requires |content| >= 10 && StartsWith(content, JsonFence) && EndsWith(content, Fence)
    requires !StartsWith(content[7..|content| - 3], Fence)
    ensures DropFences(content) == content[7..|content| - 3]
  {
    WrappedSteps(content);
  }
}
