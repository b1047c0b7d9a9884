/**
 * Line handling of the alignment reader: Python's str.rstrip / str.strip on
 * byte strings and gen_paragraphs, which groups the non-blank lines of a file
 * into the paragraphs separated by blank lines.
 */
module TextLines {

  /** The characters Python 2's str.isspace accepts: space, \t, \n, \v, \f, \r. */
  predicate IsSpace(c: char) {
    c == ' ' || c == '\t' || c == '\n' || c == '\r' || c as int == 11 || c as int == 12
  }

  /** str.rstrip(): s without its trailing whitespace. */
  function RStrip(s: string): (r: string)
    ensures |r| <= |s| && r == s[..|r|]
    ensures |r| == 0 || !IsSpace(r[|r| - 1])
    ensures forall k :: |r| <= k < |s| ==> IsSpace(s[k])
  {
    if |s| > 0 && IsSpace(s[|s| - 1]) then RStrip(s[..|s| - 1]) else s
  }

  /** str.lstrip(): s without its leading whitespace. */
  function LStrip(s: string): (r: string)
    ensures |r| <= |s| && r == s[|s| - |r|..]
    ensures |r| == 0 || !IsSpace(r[0])
    ensures forall k :: 0 <= k < |s| - |r| ==> IsSpace(s[k])
  {
    if |s| > 0 && IsSpace(s[0]) then LStrip(s[1..]) else s
  }

  /** str.strip(): s without leading and trailing whitespace. */
  function Strip(s: string): (r: string)
    ensures |r| <= |s|
    ensures |r| == 0 || (!IsSpace(r[0]) && !IsSpace(r[|r| - 1]))
    ensures exists i :: (0 <= i <= |s| - |r| && s[i..][..|r|] == r &&
      (forall k :: 0 <= k < i ==> IsSpace(s[k])) && (forall k :: i + |r| <= k < |s| ==> IsSpace(s[k])))
  {
    var t := RStrip(s);
    var r := LStrip(t);
    StripWitness(s, t, r);
    r
  }

  /** A slice of a prefix of s is the same slice of s. */
  lemma SliceOfPrefix(s: string, t: string, r: string, i: nat)
    requires |t| <= |s| && t == s[..|t|] && i + |r| == |t| && r == t[i..]
    ensures s[i..][..|r|] == r
  {
  }

  /**
   * Right-stripping s to t and then left-stripping t to r leaves r with no
   * whitespace at either end, at offset |t| - |r| of s, with only
   * whitespace around it.
   */
  lemma StripWitness(s: string, t: string, r: string)
    requires |t| <= |s| && t == s[..|t|] && forall k :: |t| <= k < |s| ==> IsSpace(s[k])
    requires |t| == 0 || !IsSpace(t[|t| - 1])
    requires |r| <= |t| && r == t[|t| - |r|..] && forall k :: 0 <= k < |t| - |r| ==> IsSpace(t[k])
    requires |r| == 0 || !IsSpace(r[0])
    ensures |r| == 0 || (!IsSpace(r[0]) && !IsSpace(r[|r| - 1]))
    ensures exists i :: (0 <= i <= |s| - |r| && s[i..][..|r|] == r &&
      (forall k :: 0 <= k < i ==> IsSpace(s[k])) && (forall k :: i + |r| <= k < |s| ==> IsSpace(s[k])))
  {
    var i := |t| - |r|;
    SliceOfPrefix(s, t, r, i);
    forall k | 0 <= k < i
      ensures IsSpace(s[k])
    {
      assert s[k] == t[k];
    }
    if |r| > 0 {
      assert r[|r| - 1] == t[|t| - 1];
    }
    assert 0 <= i <= |s| - |r| && s[i..][..|r|] == r;
  }


  /** A line gen_paragraphs keeps: non-empty and already right-stripped. */
  predicate KeptLine(l: string) {
    l != "" && RStrip(l) == l
  }

  /** A well-formed paragraph: at least one line, every line kept. */
  predicate WellFormed(p: seq<string>) {
    |p| > 0 && forall k :: 0 <= k < |p| ==> KeptLine(p[k])
  }

  /**
   * The paragraphs that the remaining lines produce when cur holds the lines
   * of the paragraph gathered so far: a non-blank line (after rstrip) is
   * added to it, a blank line closes it when it is non-empty, and the end of
   * the input closes it too.
   */
  function Split(lines: seq<string>, cur: seq<string>): seq<seq<string>>
    decreases |lines|
  {
    if |lines| == 0 then (if cur == [] then [] else [cur])
    else
      var line := RStrip(lines[0]);
      if line != "" then Split(lines[1..], cur + [line])
      else if cur != [] then [cur] + Split(lines[1..], [])
      else Split(lines[1..], [])
  }

  /** The paragraphs gen_paragraphs yields, in order. */
  function Paragraphs(lines: seq<string>): seq<seq<string>> {
    Split(lines, [])
  }

  /**
   * gen_paragraphs, with the file given as its sequence of lines: the
   * generator is collected into the sequence it yields.
   */
  method GenParagraphs(lines: seq<string>) returns (paras: seq<seq<string>>)
    ensures paras == Paragraphs(lines)
  {
    paras := [];
    var cur: seq<string> := [];
    for k := 0 to |lines|
      invariant paras + Split(lines[k..], cur) == Paragraphs(lines)
    {
      assert lines[k..][1..] == lines[k + 1..];
      var line := RStrip(lines[k]);
      if line != "" {
        cur := cur + [line];
      } else if cur != [] {
        paras := paras + [cur];
        cur := [];
      }
    }
    if cur != [] {
      paras := paras + [cur];
    }
  }

  /** The concatenation of a sequence of paragraphs. */
  function Flatten(ps: seq<seq<string>>): seq<string> {
    if |ps| == 0 then [] else ps[0] + Flatten(ps[1..])
  }

  /** The right-stripped lines that are not blank, in input order. */
  function NonBlank(lines: seq<string>): (r: seq<string>)
    ensures forall k :: 0 <= k < |r| ==> KeptLine(r[k])
  {
    if |lines| == 0 then []
    else
      var line := RStrip(lines[0]);
      assert RStrip(line) == line;
      (if line != "" then [line] else []) + NonBlank(lines[1..])
  }

  /** Every paragraph produced is well formed, given a well-formed partial one. */
  lemma {:induction false} SplitWellFormed(lines: seq<string>, cur: seq<string>)
    requires forall k :: 0 <= k < |cur| ==> KeptLine(cur[k])
    ensures forall p :: p in Split(lines, cur) ==> WellFormed(p)
    decreases |lines|
  {
    if |lines| > 0 {
      var line := RStrip(lines[0]);
      assert RStrip(line) == line;
      if line != "" {
        SplitWellFormed(lines[1..], cur + [line]);
      } else {
        SplitWellFormed(lines[1..], []);
      }
    }
  }

  /** gen_paragraphs yields only non-empty paragraphs of non-blank, right-stripped lines. */
  lemma ParagraphsWellFormed(lines: seq<string>)
    ensures forall p :: p in Paragraphs(lines) ==> WellFormed(p)
  {
    SplitWellFormed(lines, []);
  }

  lemma {:induction false} FlattenAppend(a: seq<seq<string>>, b: seq<seq<string>>)
    ensures Flatten(a + b) == Flatten(a) + Flatten(b)
  {
    if |a| > 0 {
      assert (a + b)[0] == a[0];
      assert (a + b)[1..] == a[1..] + b;
      FlattenAppend(a[1..], b);
      calc {
        Flatten(a + b);
        a[0] + Flatten(a[1..] + b);
        a[0] + (Flatten(a[1..]) + Flatten(b));
        (a[0] + Flatten(a[1..])) + Flatten(b);
      }
    } else {
      assert a + b == b;
    }
  }

  lemma {:induction false} FlattenSplit(lines: seq<string>, cur: seq<string>)
    ensures Flatten(Split(lines, cur)) == cur + NonBlank(lines)
    decreases |lines|
  {
    if |lines| == 0 {
      if cur != [] {
        assert Flatten([cur]) == cur + Flatten([]);
      }
    } else {
      var line := RStrip(lines[0]);
      if line != "" {
        FlattenSplit(lines[1..], cur + [line]);
      } else if cur != [] {
        FlattenSplit(lines[1..], []);
        FlattenAppend([cur], Split(lines[1..], []));
        assert Flatten([cur]) == cur + Flatten([]);
      } else {
        FlattenSplit(lines[1..], []);
      }
    }
  }

  /** Read in order, the paragraphs are exactly the non-blank right-stripped lines. */
  lemma ParagraphsFlatten(lines: seq<string>)
    ensures Flatten(Paragraphs(lines)) == NonBlank(lines)
  {
    FlattenSplit(lines, []);
  }

  lemma {:induction false} SplitAtBlank(a: seq<string>, blank: string, b: seq<string>, cur: seq<string>)
    requires RStrip(blank) == ""
    ensures Split(a + [blank] + b, cur) == Split(a, cur) + Split(b, [])
    decreases |a|
  {
    if |a| == 0 {
      assert a + [blank] + b == [blank] + b;
      assert ([blank] + b)[1..] == b;
    } else {
      var rest := a[1..];
      assert (a + [blank] + b)[0] == a[0];
      assert (a + [blank] + b)[1..] == rest + [blank] + b;
      var line := RStrip(a[0]);
      if line != "" {
        var cur' := cur + [line];
        SplitAtBlank(rest, blank, b, cur');
      } else {
        SplitAtBlank(rest, blank, b, []);
      }
    }
  }

  /** A blank line separates: the lines before it and after it split independently. */
  lemma ParagraphsAtBlank(a: seq<string>, blank: string, b: seq<string>)
    requires RStrip(blank) == ""
    ensures Paragraphs(a + [blank] + b) == Paragraphs(a) + Paragraphs(b)
  {
    SplitAtBlank(a, blank, b, []);
  }

  lemma {:induction false} SplitKept(p: seq<string>, cur: seq<string>)
    requires forall k :: 0 <= k < |p| ==> KeptLine(p[k])
    ensures Split(p, cur) == if cur + p == [] then [] else [cur + p]
    decreases |p|
  {
    if |p| > 0 {
      assert KeptLine(p[0]);
      assert cur + p == (cur + [p[0]]) + p[1..];
      assert forall k :: 0 <= k < |p[1..]| ==> p[1..][k] == p[k + 1];
      SplitKept(p[1..], cur + [p[0]]);
      assert RStrip(p[0]) == p[0] && p[0] != "";
      assert Split(p, cur) == Split(p[1..], cur + [p[0]]);
      assert cur + p != [];
      assert Split(p, cur) == [cur + p];
    } else {
      assert cur + p == cur;
    }
  }

  /** The lines of a file holding the given paragraphs, one blank line between two. */
  function Join(ps: seq<seq<string>>): seq<string> {
    if |ps| == 0 then []
    else if |ps| == 1 then ps[0]
    else ps[0] + [""] + Join(ps[1..])
  }

  /** Reading back the file Join writes gives the same paragraphs. */
  lemma {:induction false} ParagraphsOfJoin(ps: seq<seq<string>>)
    requires forall k :: 0 <= k < |ps| ==> WellFormed(ps[k])
    ensures Paragraphs(Join(ps)) == ps
  {
    if |ps| == 1 {
      SplitKept(ps[0], []);
      assert [] + ps[0] == ps[0];
    } else if |ps| > 1 {
      ParagraphsAtBlank(ps[0], "", Join(ps[1..]));
      SplitKept(ps[0], []);
      assert [] + ps[0] == ps[0];
      ParagraphsOfJoin(ps[1..]);
      assert ps == [ps[0]] + ps[1..];
    }
  }
}
