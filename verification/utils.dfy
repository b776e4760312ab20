/**
  The response sanitizer `cleanJSON` of lib/utils.ts. It applies, in order,
  `trim()`, `replace` of the pattern `^```json\s*` by "" and `replace(/```$/, "")` to the text
  the generation model returned, so that a reply wrapped in a markdown code
  fence can be handed to `JSON.parse`. It validates nothing.
 */
module Utils {
  import opened Whitespace

  /** The opening fence the first regular expression anchors at the start. */
  const JsonFence: string := "```json"
  /** The closing fence the second regular expression anchors at the end. */
  const Fence: string := "```"

  predicate StartsWith(s: string, p: string) {
    p <= s
  }

  predicate EndsWith(s: string, p: string) {
    |p| <= |s| && s[|s| - |p|..] == p
  }

  /** `s` occurs as one contiguous piece of `t`. */
  ghost predicate IsInfix(s: string, t: string) {
    exists i :: 0 <= i <= |t| && s <= t[i..]
  }

  /**
    `replace` of the pattern `^```json\s*` by "": the regular expression has no `m` flag, so
    `^` only matches at index 0, and the greedy `\s*` takes the whole space run
    that follows the tag. Only the lower-case tag is recognised.
   */
  function StripJsonFence(t: string): (u: string)
    ensures |u| <= |t| && u == t[|t| - |u|..]
    ensures StartsWith(t, JsonFence) ==>
      && |JsonFence| <= |t| - |u|
      && AllSpace(t[|JsonFence|..|t| - |u|])
      && (|u| == 0 || !IsSpace(u[0]))
    ensures !StartsWith(t, JsonFence) ==> u == t
  {
    if StartsWith(t, JsonFence) then
      var rest := t[|JsonFence|..];
      var u := TrimStart(rest);
      assert t[|t| - |u|..] == rest[|rest| - |u|..];
      assert t[|JsonFence|..|t| - |u|] == rest[..|rest| - |u|];
      u
    else
      t
  }

  /**
    `replace(/```$/, "")`: without the `m` flag `$` only matches at the end of
    the input, so at most one fence of exactly three characters is removed.
   */
  function StripClosingFence(u: string): (v: string)
    ensures EndsWith(u, Fence) ==> v + Fence == u
    ensures !EndsWith(u, Fence) ==> v == u
  {
    if EndsWith(u, Fence) then
      assert u[..|u| - |Fence|] + u[|u| - |Fence|..] == u;
      u[..|u| - |Fence|]
    else
      u
  }

  /** `cleanJSON(text)`. Nothing is trimmed again after the fences are removed. */
  function CleanJson(text: string): (r: string)
    ensures |r| <= |text|
    ensures IsInfix(r, Trim(text))
    ensures !StartsWith(Trim(text), JsonFence) && !EndsWith(Trim(text), Fence) ==> r == Trim(text)
  {
    var t := Trim(text);
    var u := StripJsonFence(t);
    var r := StripClosingFence(u);
    assert r <= t[|t| - |u|..];
    r
  }

  /**
    The opening replacement removes exactly the tag and the maximal space run
    after it: for any split of the text into tag, spaces and a remainder that
    does not start with a space, the remainder is what is left.
   */
  lemma StripJsonFenceOfPadded(w: string, u: string)
    requires AllSpace(w)
    requires |u| == 0 || !IsSpace(u[0])
    ensures StripJsonFence(JsonFence + w + u) == u
  {
    var t := JsonFence + w + u;
    assert StartsWith(t, JsonFence);
    assert t[|JsonFence|..] == w + u;
    TrimStartOfPadded(w, u);
  }

  /** Text that opens with the tag is the tag, the removed space run and what is left. */
  lemma SplitAtJsonFence(t: string)
    requires StartsWith(t, JsonFence)
    ensures t == JsonFence + t[|JsonFence|..|t| - |StripJsonFence(t)|] + StripJsonFence(t)
  {
    var k := |t| - |StripJsonFence(t)|;
    var head, w, u := t[..|JsonFence|], t[|JsonFence|..k], t[k..];
    assert head == JsonFence;
    assert t == head + w + u;
  }

  /** The closing replacement undoes appending a fence. */
  lemma StripClosingFenceOfFenced(v: string)
    ensures StripClosingFence(v + Fence) == v
  {
    assert (v + Fence)[|v|..] == Fence;
    assert (v + Fence)[..|v|] == v;
  }

  /**
    When the trimmed text opens with the `json` tag, exactly the tag and the
    maximal space run after it are removed from the front, then at most one
    closing fence from the end.
   */
  lemma CleanJsonOpenFence(text: string, w: string, u: string)
    requires Trim(text) == JsonFence + w + u
    requires AllSpace(w)
    requires |u| == 0 || !IsSpace(u[0])
    ensures CleanJson(text) == StripClosingFence(u)
  {
    StripJsonFenceOfPadded(w, u);
  }

  /** Without the lower-case `json` tag the front is left alone: only a closing fence can go. */
  lemma CleanJsonNoOpenFence(text: string)
    requires !StartsWith(Trim(text), JsonFence)
    ensures CleanJson(text) == StripClosingFence(Trim(text))
    ensures StartsWith(Trim(text), CleanJson(text))
    ensures |Trim(text)| - |CleanJson(text)| in {0, |Fence|}
  {
  }

  /**
    A body wrapped as `pad + "```json" + w + body + tail + "```" + pad'` cleans
    back to `body + tail`: the space before the closing fence is kept because
    nothing is trimmed after the fences are removed.
   */
  lemma CleanJsonOfFenced(pre: string, w: string, body: string, tail: string, post: string)
    requires AllSpace(pre) && AllSpace(w) && AllSpace(tail) && AllSpace(post)
    requires |body| > 0 && !IsSpace(body[0])
    ensures CleanJson(pre + JsonFence + w + body + tail + Fence + post) == body + tail
  {
    var inner := body + tail;
    var u := inner + Fence;
    var core := JsonFence + w + u;
    assert IsTrimmed(core) by {
      assert core[0] == JsonFence[0];
      assert core[|core| - 1] == u[|u| - 1] == Fence[2];
    }
    var text := pre + JsonFence + w + body + tail + Fence + post;
    assert text == pre + core + post by {
      assert pre + JsonFence + w + body + tail == pre + JsonFence + w + inner;
      assert pre + JsonFence + w + inner + Fence == pre + (JsonFence + w + u);
    }
    TrimOfPadded(pre, core, post);
    assert u[0] == body[0];
    StripJsonFenceOfPadded(w, u);
    StripClosingFenceOfFenced(inner);
  }

  lemma NoBacktickInJsonFence(t: string, i: int)
    requires StartsWith(t, JsonFence)
    requires 3 <= i < |JsonFence|
    ensures t[i] != '`'
  {
    assert t[i] == JsonFence[i];
  }

  lemma NoBacktickInSpaceRun(t: string, i: int)
    requires StartsWith(t, JsonFence)
    requires |JsonFence| <= i < |t| - |StripJsonFence(t)|
    ensures t[i] != '`'
  {
    assert t[|JsonFence|..|t| - |StripJsonFence(t)|][i - |JsonFence|] == t[i];
  }

  /** A closing fence at the end of fenced text lies wholly after the removed front. */
  lemma ClosingFenceAfterOpen(t: string)
    requires StartsWith(t, JsonFence) && EndsWith(t, Fence)
    ensures |t| - |StripJsonFence(t)| + |Fence| <= |t|
  {
    var p := |t| - |Fence|;
    assert t[p] == t[p..][0] == Fence[0];
    if p < |JsonFence| {
      NoBacktickInJsonFence(t, p);
      assert false;
    } else if p < |t| - |StripJsonFence(t)| {
      NoBacktickInSpaceRun(t, p);
      assert false;
    }
  }

  /** A suffix of text that does not end with a fence does not end with one either. */
  lemma NoFenceInSuffix(t: string, u: string)
    requires |u| <= |t| && u == t[|t| - |u|..]
    requires !EndsWith(t, Fence)
    ensures !EndsWith(u, Fence)
  {
    if |Fence| <= |u| {
      assert u[|u| - |Fence|..] == t[|t| - |Fence|..];
    }
  }

  /** A suffix of at least three characters ends with the fence when the whole text does. */
  lemma FenceInLongSuffix(t: string, u: string)
    requires |Fence| <= |u| <= |t| && u == t[|t| - |u|..]
    requires EndsWith(t, Fence)
    ensures EndsWith(u, Fence)
  {
    assert u[|u| - |Fence|..] == t[|t| - |Fence|..];
  }

  /** The closing replacement only touches the end of the text. */
  lemma StripClosingFenceOfConcat(a: string, u: string)
    requires EndsWith(u, Fence)
    ensures StripClosingFence(a + u) == a + StripClosingFence(u)
  {
    var v := StripClosingFence(u);
    assert a + u == (a + v) + Fence;
    StripClosingFenceOfFenced(a + v);
  }

  lemma CommuteOnDoublyFenced(t: string)
    requires StartsWith(t, JsonFence) && EndsWith(t, Fence)
    ensures StripClosingFence(StripJsonFence(t)) == StripJsonFence(StripClosingFence(t))
  {
    var u := StripJsonFence(t);
    var w := t[|JsonFence|..|t| - |u|];
    SplitAtJsonFence(t);
    ClosingFenceAfterOpen(t);
    FenceInLongSuffix(t, u);
    var v := StripClosingFence(u);
    StripClosingFenceOfConcat(JsonFence + w, u);
    assert |v| == 0 || !IsSpace(v[0]) by {
      assert u == v + Fence;
      if |v| > 0 {
        assert v[0] == u[0];
      }
    }
    StripJsonFenceOfPadded(w, v);
  }

  /**
    The two replacements commute: removing the closing fence first and the
    opening one second gives the same result on every input, so the order in
    which the source applies them is not observable.
   */
  lemma StripsCommute(t: string)
    ensures StripClosingFence(StripJsonFence(t)) == StripJsonFence(StripClosingFence(t))
  {
    if StartsWith(t, JsonFence) {
      if EndsWith(t, Fence) {
        CommuteOnDoublyFenced(t);
      } else {
        NoFenceInSuffix(t, StripJsonFence(t));
      }
    } else if EndsWith(t, Fence) {
      var c := StripClosingFence(t);
      assert c <= t;
    }
  }

  /** Cleaning leaves a string unchanged exactly when it is trimmed and carries neither fence. */
  lemma CleanJsonFixedPoint(s: string)
    ensures CleanJson(s) == s <==>
      IsTrimmed(s) && !StartsWith(s, JsonFence) && !EndsWith(s, Fence)
  {
    TrimFixedPoint(s);
    if CleanJson(s) == s {
      var t := Trim(s);
      var i :| 0 <= i <= |t| && s <= t[i..];
      assert |t| == |s|;
    }
  }

  /** Unfenced trimmed text followed by space cleans to the text alone. */
  lemma CleanJsonOfSpacedPlain(body: string, tail: string)
    requires IsTrimmed(body) && AllSpace(tail)
    requires !StartsWith(body, JsonFence) && !EndsWith(body, Fence)
    ensures CleanJson(body + tail) == body
  {
    assert [] + body + tail == body + tail;
    TrimOfPadded([], body, tail);
  }

  /**
    A fenced body is cleaned to itself followed by the space run that preceded
    the closing fence; a second pass trims that run away. So cleaning a single
    fenced reply is stable exactly when nothing but the body lies between the
    fences' padding.
   */
  lemma CleanJsonTwiceOnFenced(pre: string, w: string, body: string, tail: string, post: string)
    requires AllSpace(pre) && AllSpace(w) && AllSpace(tail) && AllSpace(post)
    requires |body| > 0 && IsTrimmed(body)
    requires !StartsWith(body, JsonFence) && !EndsWith(body, Fence)
    ensures CleanJson(pre + JsonFence + w + body + tail + Fence + post) == body + tail
    ensures CleanJson(CleanJson(pre + JsonFence + w + body + tail + Fence + post)) == body
    ensures |tail| > 0 ==>
      CleanJson(CleanJson(pre + JsonFence + w + body + tail + Fence + post))
      != CleanJson(pre + JsonFence + w + body + tail + Fence + post)
  {
    var text := pre + JsonFence + w + body + tail + Fence + post;
    CleanJsonOfFenced(pre, w, body, tail, post);
    assert CleanJson(text) == body + tail;
    CleanJsonOfSpacedPlain(body, tail);
  }

  /**
    One fenced body whose content is trimmed, carries no fence of its own and
    meets the closing fence directly is cleaned in one pass: a second pass
    changes nothing.
   */
  lemma CleanJsonIdempotentOnFenced(pre: string, w: string, body: string, post: string)
    requires AllSpace(pre) && AllSpace(w) && AllSpace(post)
    requires |body| > 0 && IsTrimmed(body)
    requires !StartsWith(body, JsonFence) && !EndsWith(body, Fence)
    ensures CleanJson(pre + JsonFence + w + body + Fence + post) == body
    ensures CleanJson(CleanJson(pre + JsonFence + w + body + Fence + post))
         == CleanJson(pre + JsonFence + w + body + Fence + post)
  {
    assert pre + JsonFence + w + body + [] + Fence + post == pre + JsonFence + w + body + Fence + post;
    CleanJsonTwiceOnFenced(pre, w, body, [], post);
  }

  /** Unfenced text is cleaned in one pass: a second pass changes nothing. */
  lemma CleanJsonIdempotentOnPlain(text: string)
    requires !StartsWith(Trim(text), JsonFence) && !EndsWith(Trim(text), Fence)
    ensures CleanJson(CleanJson(text)) == CleanJson(text)
  {
    TrimIdempotent(text);
    CleanJsonFixedPoint(Trim(text));
  }

  /** Trimmed text without the tag that ends in a fence loses just that fence. */
  lemma CleanJsonOfUnopened(t: string, v: string)
    requires IsTrimmed(t) && !StartsWith(t, JsonFence)
    requires t == v + Fence
    ensures CleanJson(t) == v
  {
    TrimFixedPoint(t);
    StripClosingFenceOfFenced(v);
  }

  /** The usual fenced reply: the newline before the closing fence survives. */
  lemma CleanJsonKeepsSpaceBeforeClosingFence()
    ensures CleanJson("```json\n[1]\n```") == "[1]\n"
  {
    var t := "```json\n[1]\n```";
    assert t == JsonFence + "\n" + ("[1]\n" + Fence);
    assert IsTrimmed(t);
    StripJsonFenceOfPadded("\n", "[1]\n" + Fence);
    StripClosingFenceOfFenced("[1]\n");
    TrimFixedPoint(t);
  }

  /** The usual fenced reply is changed again by a second pass, which trims the kept newline. */
  lemma CleanJsonSingleFenceNotIdempotent()
    ensures CleanJson(CleanJson("```json\n[1]\n```")) == "[1]" != CleanJson("```json\n[1]\n```")
  {
    CleanJsonKeepsSpaceBeforeClosingFence();
    var once, body := "[1]\n", "[1]";
    assert once == [] + body + "\n";
    assert body[2] != Fence[2];
    assert IsTrimmed(body) && AllSpace("\n");
    TrimOfPadded([], body, "\n");
  }

  /** An upper-case tag is not recognised; only the closing fence is removed. */
  lemma CleanJsonKeepsUpperCaseTag()
    ensures CleanJson("```JSON\n[1]\n```") == "```JSON\n[1]\n"
  {
    assert "```JSON\n[1]\n```"[3] != JsonFence[3];
    CleanJsonOfUnopened("```JSON\n[1]\n```", "```JSON\n[1]\n");
  }

  /** A bare opening fence is not recognised either. */
  lemma CleanJsonKeepsBareOpeningFence()
    ensures CleanJson("```\n[1]\n```") == "```\n[1]\n"
  {
    assert "```\n[1]\n```"[3] != JsonFence[3];
    CleanJsonOfUnopened("```\n[1]\n```", "```\n[1]\n");
  }

  /** The tag directly followed by the closing fence cleans to nothing. */
  lemma CleanJsonOfEmptyFence()
    ensures CleanJson("```json```") == ""
  {
    var t := "```json```";
    assert t == JsonFence + [] + Fence;
    assert IsTrimmed(t);
    StripJsonFenceOfPadded([], Fence);
    StripClosingFenceOfFenced([]);
    TrimFixedPoint(t);
  }

  /** Only one closing fence is removed. */
  lemma CleanJsonRemovesOneClosingFence()
    ensures CleanJson("[1]``````") == "[1]```"
  {
    CleanJsonOfUnopened("[1]``````", "[1]```");
  }

  /** One pass over text that ends in two fences removes only the last one. */
  lemma CleanJsonFirstPass()
    ensures CleanJson("a```\n```") == "a```\n"
  {
    CleanJsonOfUnopened("a```\n```", "a```\n");
  }

  /** A second pass trims the newline the first left and strips the now final fence. */
  lemma CleanJsonSecondPass()
    ensures CleanJson("a```\n") == "a"
  {
    var once, inner := "a```\n", "a```";
    assert once == [] + inner + "\n";
    assert inner == "a" + Fence;
    assert inner[0] != JsonFence[0];
    assert IsTrimmed(inner) && AllSpace("\n");
    StripClosingFenceOfFenced("a");
    TrimOfPadded([], inner, "\n");
  }

  /** Cleaning is not idempotent in general. */
  lemma CleanJsonNotIdempotent()
    ensures CleanJson(CleanJson("a```\n```")) != CleanJson("a```\n```")
  {
    CleanJsonFirstPass();
    CleanJsonSecondPass();
  }
}
