/** The plain-text fallback of index.mjs: the HTML body with every
    `<...>` tag removed, every run of whitespace turned into one space and
    the ends trimmed, i.e.
    `html.replace(/<[^>]+>/g, '').replace(/\s+/g, ' ').trim()`. */
module PlainText {
  import opened Js

  /** The index of the first '>' at or after `from`, or |s| if there is none. */
  function NextGt(s: string, from: nat): (j: nat)
    requires from <= |s|
    ensures from <= j <= |s|
    ensures j < |s| ==> s[j] == '>'
    ensures forall k :: from <= k < j ==> s[k] != '>'
    decreases |s| - from
  {
    if from == |s| || s[from] == '>' then from else NextGt(s, from + 1)
  }

  /** `/<[^>]+>/` matches at the start of `s`; the match is `s[..NextGt(s, 1) + 1]`
      (the greedy `[^>]+` runs up to the first '>', and needs at least one
      character before it). */
  predicate TagAtStart(s: string) {
    |s| >= 2 && s[0] == '<' && s[1] != '>' && NextGt(s, 1) < |s|
  }

  /** `s.replace(/<[^>]+>/g, '')`: the scan tries a match at each position,
      removes it and resumes after it, or keeps one character and moves on. */
  function StripTags(s: string): string
    decreases |s|
  {
    if s == [] then []
    else if TagAtStart(s) then StripTags(s[NextGt(s, 1) + 1..])
    else [s[0]] + StripTags(s[1..])
  }

  /** `s` without its leading whitespace. */
  function TrimStart(s: string): (r: string)
    ensures |r| <= |s| && r == s[|s| - |r|..]
    ensures r == [] || !IsWhitespace(r[0])
    ensures forall k :: 0 <= k < |s| - |r| ==> IsWhitespace(s[k])
  {
    if s != [] && IsWhitespace(s[0]) then TrimStart(s[1..]) else s
  }

  /** `s` without its trailing whitespace. */
  function TrimEnd(s: string): (r: string)
    ensures |r| <= |s| && r == s[..|r|]
    ensures r == [] || !IsWhitespace(r[|r| - 1])
    ensures forall k :: |r| <= k < |s| ==> IsWhitespace(s[k])
  {
    if s != [] && IsWhitespace(s[|s| - 1]) then TrimEnd(s[..|s| - 1]) else s
  }

  /** `s.trim()` */
  function Trim(s: string): string {
    TrimEnd(TrimStart(s))
  }

  /** `s.replace(/\s+/g, ' ')`: each maximal run of whitespace becomes one space. */
  function CollapseWhitespace(s: string): string
    decreases |s|
  {
    if s == [] then []
    else if IsWhitespace(s[0]) then " " + CollapseWhitespace(TrimStart(s[1..]))
    else [s[0]] + CollapseWhitespace(s[1..])
  }

  /** The text body index.mjs sends beside the HTML body. */
  function ToPlainText(html: string): string {
    Trim(CollapseWhitespace(StripTags(html)))
  }

  // ---------------------------------------------------------------------
  // Properties of the result

  /** `s` contains a match of `/<[^>]+>/`: a '<', at least one character
      other than '>', and a '>'. */
  ghost predicate HasTagMatch(s: string) {
    exists i, j :: 0 <= i && i + 2 <= j < |s| && s[i] == '<' && s[j] == '>'
      && (forall k :: i < k < j ==> s[k] != '>')
  }

  predicate GtFree(s: string) {
    forall j :: 0 <= j < |s| ==> s[j] != '>'
  }

  /** Every '<' is directly followed by '>' or has no '>' anywhere after it. */
  predicate TagFree(s: string) {
    forall i :: 0 <= i < |s| && s[i] == '<' ==>
      (i + 1 < |s| && s[i + 1] == '>') || GtFree(s[i + 1..])
  }

  predicate NoWhitespaceRun(s: string) {
    forall i :: 0 <= i && i + 1 < |s| ==> !(IsWhitespace(s[i]) && IsWhitespace(s[i + 1]))
  }

  predicate Trimmed(s: string) {
    s == [] || (!IsWhitespace(s[0]) && !IsWhitespace(s[|s| - 1]))
  }

  lemma TagFreeHasNoMatch(s: string)
    requires TagFree(s)
    ensures !HasTagMatch(s)
  {
    forall i, j | 0 <= i && i + 2 <= j < |s| && s[i] == '<' && s[j] == '>'
      ensures exists k :: i < k < j && s[k] == '>'
    {
      assert s[i + 1..][j - i - 1] == s[j];
      assert s[i + 1] == '>';
    }
  }

  lemma TagFreeCons(c: char, t: string)
    requires TagFree(t)
    requires c == '<' ==> (|t| > 0 && t[0] == '>') || GtFree(t)
    ensures TagFree([c] + t)
  {
    var s := [c] + t;
    forall i | 0 <= i < |s| && s[i] == '<'
      ensures (i + 1 < |s| && s[i + 1] == '>') || GtFree(s[i + 1..])
    {
      if i == 0 {
        assert s[1..] == t;
      } else {
        assert s[i] == t[i - 1];
        assert s[i + 1..] == t[i..];
      }
    }
  }

  lemma TagFreeSlice(s: string, a: nat, b: nat)
    requires TagFree(s) && a <= b <= |s|
    ensures TagFree(s[a..b])
  {
    var t := s[a..b];
    forall i | 0 <= i < |t| && t[i] == '<'
      ensures (i + 1 < |t| && t[i + 1] == '>') || GtFree(t[i + 1..])
    {
      assert s[a + i] == '<';
      if i + 1 < |t| && t[i + 1] == '>' {
      } else if i + 1 == |t| {
        assert t[i + 1..] == [];
      } else {
        assert !(a + i + 1 < |s| && s[a + i + 1] == '>');
        assert GtFree(s[a + i + 1..]);
        var u := t[i + 1..];
        forall j | 0 <= j < |u| ensures u[j] != '>' {
          assert u[j] == s[a + i + 1..][j];
        }
      }
    }
  }

  lemma {:induction false} StripTagsGtFree(s: string)
    requires GtFree(s)
    ensures StripTags(s) == s
    decreases |s|
  {
    if s != [] {
      assert !TagAtStart(s) by {
        if |s| >= 2 { assert NextGt(s, 1) == |s| by { GtFreeNextGt(s, 1); } }
      }
      StripTagsGtFree(s[1..]);
      assert s == [s[0]] + s[1..];
    }
  }

  lemma GtFreeNextGt(s: string, from: nat)
    requires GtFree(s) && from <= |s|
    ensures NextGt(s, from) == |s|
  {
  }

  lemma {:induction false} StripTagsTagFree(s: string)
    ensures TagFree(StripTags(s))
    decreases |s|
  {
    if s == [] {
    } else if TagAtStart(s) {
      StripTagsTagFree(s[NextGt(s, 1) + 1..]);
    } else {
      var t := StripTags(s[1..]);
      StripTagsTagFree(s[1..]);
      if s[0] == '<' {
        if |s| >= 2 && s[1] == '>' {
          assert !TagAtStart(s[1..]);
          assert t == [s[1]] + StripTags(s[2..]) by { assert s[1..][1..] == s[2..]; }
        } else if |s| >= 2 {
          assert NextGt(s, 1) == |s|;
          GtFreeFrom(s, 1);
          StripTagsGtFree(s[1..]);
        }
      }
      TagFreeCons(s[0], t);
    }
  }

  lemma GtFreeFrom(s: string, from: nat)
    requires from <= |s| && NextGt(s, from) == |s|
    ensures GtFree(s[from..])
  {
    forall j | 0 <= j < |s[from..]| ensures s[from..][j] != '>' {
      assert s[from..][j] == s[from + j];
    }
  }

  lemma {:induction false} CollapseGtFree(s: string)
    requires GtFree(s)
    ensures GtFree(CollapseWhitespace(s))
    decreases |s|
  {
    if s != [] {
      if IsWhitespace(s[0]) {
        var u := TrimStart(s[1..]);
        assert GtFree(u) by {
          forall j | 0 <= j < |u| ensures u[j] != '>' {
            assert u[j] == s[1..][|s[1..]| - |u| + j];
          }
        }
        CollapseGtFree(u);
        GtFreeCons(' ', CollapseWhitespace(u));
      } else {
        assert GtFree(s[1..]) by {
          forall j | 0 <= j < |s[1..]| ensures s[1..][j] != '>' { assert s[1..][j] == s[j + 1]; }
        }
        CollapseGtFree(s[1..]);
        GtFreeCons(s[0], CollapseWhitespace(s[1..]));
      }
    }
  }

  lemma GtFreeCons(c: char, t: string)
    requires c != '>' && GtFree(t)
    ensures GtFree([c] + t)
  {
    forall j | 0 <= j < |[c] + t| ensures ([c] + t)[j] != '>' {
      if j > 0 { assert ([c] + t)[j] == t[j - 1]; }
    }
  }

  /** A non-empty result of the collapse starts with what the input starts with,
      up to whitespace becoming a space. */
  lemma CollapseHead(s: string)
    requires s != []
    ensures CollapseWhitespace(s) != []
    ensures CollapseWhitespace(s)[0] == if IsWhitespace(s[0]) then ' ' else s[0]
  {
  }

  lemma {:induction false} CollapseTagFree(s: string)
    requires TagFree(s)
    ensures TagFree(CollapseWhitespace(s))
    decreases |s|
  {
    if s != [] {
      if IsWhitespace(s[0]) {
        var u := TrimStart(s[1..]);
        TagFreeSlice(s, |s| - |u|, |s|);
        assert s[|s| - |u|..] == u;
        CollapseTagFree(u);
        TagFreeCons(' ', CollapseWhitespace(u));
      } else {
        TagFreeSlice(s, 1, |s|);
        assert s[1..|s|] == s[1..];
        CollapseTagFree(s[1..]);
        if s[0] == '<' {
          if |s| > 1 && s[1] == '>' {
            CollapseHead(s[1..]);
          } else {
            assert GtFree(s[1..]);
            CollapseGtFree(s[1..]);
          }
        }
        TagFreeCons(s[0], CollapseWhitespace(s[1..]));
      }
    }
  }

  lemma {:induction false} CollapseNoRun(s: string)
    ensures NoWhitespaceRun(CollapseWhitespace(s))
    decreases |s|
  {
    if s != [] {
      var t := if IsWhitespace(s[0]) then TrimStart(s[1..]) else s[1..];
      CollapseNoRun(t);
      var c := CollapseWhitespace(t);
      if t != [] { CollapseHead(t); }
      var r := CollapseWhitespace(s);
      assert r == [r[0]] + c;
      forall i | 0 <= i && i + 1 < |r| ensures !(IsWhitespace(r[i]) && IsWhitespace(r[i + 1])) {
        if i > 0 { assert r[i] == c[i - 1] && r[i + 1] == c[i]; }
      }
    }
  }

  lemma NoRunSlice(s: string, a: nat, b: nat)
    requires NoWhitespaceRun(s) && a <= b <= |s|
    ensures NoWhitespaceRun(s[a..b])
  {
    var t := s[a..b];
    forall i | 0 <= i && i + 1 < |t| ensures !(IsWhitespace(t[i]) && IsWhitespace(t[i + 1])) {
      assert t[i] == s[a + i] && t[i + 1] == s[a + i + 1];
    }
  }

  /** Trimming keeps a contiguous part of its input and leaves no whitespace at
      either end. */
  lemma TrimIsSlice(s: string) returns (a: nat, b: nat)
    ensures a <= b <= |s| && Trim(s) == s[a..b]
    ensures Trimmed(Trim(s))
  {
    var u := TrimStart(s);
    var r := TrimEnd(u);
    a, b := |s| - |u|, |s| - |u| + |r|;
    assert u == s[a..];
    assert r == u[..|r|];
    assert s[a..][..|r|] == s[a..b];
    assert r == [] || r[0] == u[0];
  }

  /** The text body has no tag left in it, no run of two or more whitespace
      characters and no whitespace at either end. */
  lemma PlainTextProperties(html: string)
    ensures !HasTagMatch(ToPlainText(html))
    ensures NoWhitespaceRun(ToPlainText(html))
    ensures Trimmed(ToPlainText(html))
  {
    var stripped := StripTags(html);
    var collapsed := CollapseWhitespace(stripped);
    StripTagsTagFree(html);
    CollapseTagFree(stripped);
    CollapseNoRun(stripped);
    var a, b := TrimIsSlice(collapsed);
    TagFreeSlice(collapsed, a, b);
    NoRunSlice(collapsed, a, b);
    TagFreeHasNoMatch(ToPlainText(html));
  }

  /** The fallback of a text without tags and with single inner spaces is that text. */
  lemma {:induction false} PlainTextOfPlainWords(s: string)
    requires GtFree(s) && NoWhitespaceRun(s) && Trimmed(s)
    requires forall i :: 0 <= i < |s| && IsWhitespace(s[i]) ==> s[i] == ' '
    ensures Trim(CollapseWhitespace(s)) == s
    ensures ToPlainText(s) == s
  {
    StripTagsGtFree(s);
    CollapseFixed(s);
    assert TrimStart(s) == s;
    assert TrimEnd(s) == s;
  }

  lemma {:induction false} CollapseFixed(s: string)
    requires NoWhitespaceRun(s)
    requires forall i :: 0 <= i < |s| && IsWhitespace(s[i]) ==> s[i] == ' '
    ensures CollapseWhitespace(s) == s
    decreases |s|
  {
    if s != [] {
      var t := s[1..];
      assert NoWhitespaceRun(t) by { NoRunSlice(s, 1, |s|); assert s[1..|s|] == t; }
      assert forall i :: 0 <= i < |t| && IsWhitespace(t[i]) ==> t[i] == ' ' by {
        forall i | 0 <= i < |t| && IsWhitespace(t[i]) ensures t[i] == ' ' { assert t[i] == s[i + 1]; }
      }
      if IsWhitespace(s[0]) {
        assert t == [] || !IsWhitespace(t[0]) by { if t != [] { assert t[0] == s[1]; } }
        assert TrimStart(t) == t;
      }
      CollapseFixed(t);
      assert s == [s[0]] + t;
    }
  }

  lemma {:induction false} StripTagsText(w: string, rest: string)
    requires forall i :: 0 <= i < |w| ==> w[i] != '<'
    ensures StripTags(w + rest) == w + StripTags(rest)
    decreases |w|
  {
    if w != [] {
      var s := w + rest;
      assert s[0] == w[0];
      assert !TagAtStart(s);
      assert s[1..] == w[1..] + rest;
      assert StripTags(s) == [s[0]] + StripTags(s[1..]);
      StripTagsText(w[1..], rest);
      assert w == [w[0]] + w[1..];
    } else {
      assert w + rest == rest;
    }
  }

  lemma StripTagsTag(name: string, rest: string)
    requires name != [] && GtFree(name)
    ensures StripTags("<" + name + ">" + rest) == StripTags(rest)
  {
    var s := "<" + name + ">" + rest;
    assert s[1] == name[0];
    assert NextGt(s, 1) == |name| + 1 by {
      NextGtPast(s, 1, |name| + 1);
    }
    assert s[|name| + 2..] == rest;
  }

  lemma {:induction false} NextGtPast(s: string, from: nat, j: nat)
    requires from <= j < |s| && s[j] == '>'
    requires forall k :: from <= k < j ==> s[k] != '>'
    ensures NextGt(s, from) == j
    decreases j - from
  {
    if from < j { NextGtPast(s, from + 1, j); }
  }

  lemma ExampleParts(html: string)
    requires html == "<p>Hello <b>World</b></p>"
    ensures html == "<" + "p" + ">" + ("Hello " + ("<" + "b" + ">"
      + ("World" + ("<" + "/b" + ">" + ("<" + "/p" + ">" + "")))))
  {
  }

  lemma StripTagsExample(html: string)
    requires html == "<p>Hello <b>World</b></p>"
    ensures StripTags(html) == "Hello World"
  {
    var endP := "<" + "/p" + ">" + "";
    var endB := "<" + "/b" + ">" + endP;
    var world := "World" + endB;
    var bold := "<" + "b" + ">" + world;
    var hello := "Hello " + bold;
    ExampleParts(html);
    StripTagsTag("/p", "");
    StripTagsTag("/b", endP);
    StripTagsText("World", endB);
    StripTagsTag("b", world);
    StripTagsText("Hello ", bold);
    StripTagsTag("p", hello);
  }

  lemma HelloWorldIsPlain(s: string)
    requires s == "Hello World"
    ensures GtFree(s) && NoWhitespaceRun(s) && Trimmed(s)
    ensures forall i :: 0 <= i < |s| && IsWhitespace(s[i]) ==> s[i] == ' '
  {
  }

  /** `"<p>Hello <b>World</b></p>"` has the fallback `"Hello World"`. */
  lemma PlainTextExample(html: string)
    requires html == "<p>Hello <b>World</b></p>"
    ensures ToPlainText(html) == "Hello World"
  {
    StripTagsExample(html);
    var s := StripTags(html);
    HelloWorldIsPlain(s);
    PlainTextOfPlainWords(s);
  }
}
