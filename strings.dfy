/**
 * String helpers the builder relies on: Python's `str.join`, a splitter that
 * undoes it (the reference against which joined output is checked), and the
 * lemmas that describe where each joined part lands.
 */
module Strings {

  /** Python's `sep.join(parts)`: the parts in order, `sep` between neighbours. */
  function Join(sep: string, parts: seq<string>): string
  {
    if |parts| == 0 then ""
    else if |parts| == 1 then parts[0]
    else parts[0] + sep + Join(sep, parts[1..])
  }

  /** Python's `s.split(c)` for a one-character separator: never empty. */
  function Split(s: string, c: char): (r: seq<string>)
    ensures |r| >= 1
    decreases |s|
  {
    if s == [] then [""]
    else
      var rest := Split(s[1..], c);
      if s[0] == c then [""] + rest else [[s[0]] + rest[0]] + rest[1..]
  }

  /** The text before the first `c` and the text after it (`s.partition(c)` without the separator). */
  function SplitFirst(s: string, c: char): (string, string)
    decreases |s|
  {
    if s == [] then ("", "")
    else if s[0] == c then ("", s[1..])
    else
      var (before, after) := SplitFirst(s[1..], c);
      ([s[0]] + before, after)
  }

  predicate StartsWith(s: string, prefix: string)
  {
    |prefix| <= |s| && s[..|prefix|] == prefix
  }

  predicate EndsWith(s: string, suffix: string)
  {
    |suffix| <= |s| && s[|s| - |suffix|..] == suffix
  }

  /** `part` occurs in `s` starting at index `at`. */
  predicate Placed(s: string, part: string, at: nat)
  {
    at + |part| <= |s| && s[at..at + |part|] == part
  }

  /** A concatenation starts with its first part and ends with its second. */
  lemma Affixes(a: string, b: string)
    ensures StartsWith(a + b, a) && EndsWith(a + b, b)
  {
    assert (a + b)[..|a|] == a;
    assert (a + b)[|a|..] == b;
  }

  /** Concatenation is associative. */
  lemma Assoc<T>(a: seq<T>, b: seq<T>, c: seq<T>)
    ensures a + (b + c) == a + b + c
  {
  }

  /** A sequence is its two halves around any cut. */
  lemma Halves<T>(s: seq<T>, j: nat)
    requires j <= |s|
    ensures s[..j] + s[j..] == s
  {
  }

  /** Where the three parts of a concatenation sit. */
  lemma ThreeParts(a: string, b: string, c: string)
    ensures StartsWith(a + b + c, a) && Placed(a + b + c, b, |a|) && EndsWith(a + b + c, c)
    ensures |a + b + c| == |a| + |b| + |c|
  {
    var s := a + b + c;
    assert s[..|a|] == a;
    assert s[|a|..|a| + |b|] == b;
    assert s[|s| - |c|..] == c;
  }

  /** What a text keeps about its parts when another is put in front of it. */
  lemma PrefixedLayout(p: string, s: string, part: string, at: nat, tail: string)
    requires Placed(s, part, at) && EndsWith(s, tail)
    ensures EndsWith(p + s, s) && |p + s| == |p| + |s|
    ensures Placed(p + s, part, |p| + at) && EndsWith(p + s, tail)
  {
    Affixes(p, s);
    PlacedPrefixed(p, s, part, at);
    EndsWithPrefixed(p, s, tail);
  }

  /** A placed part moves right with text put in front. */
  lemma PlacedPrefixed(p: string, s: string, part: string, at: nat)
    requires Placed(s, part, at)
    ensures Placed(p + s, part, |p| + at)
  {
    assert (p + s)[|p| + at..|p| + at + |part|] == s[at..at + |part|];
  }

  /**
   * A field that holds no quote and is followed by a quote is determined by
   * the text around it.
   */
  lemma QuotedField(p: string, x: string, rest: string, y: string, rest2: string)
    requires '"' !in x && '"' !in y
    requires |rest| > 0 && rest[0] == '"' && |rest2| > 0 && rest2[0] == '"'
    requires p + x + rest == p + y + rest2
    ensures x == y && rest == rest2
  {
    var s := p + x + rest;
    if |x| != |y| {
      assert false;
    } else {
      assert x == s[|p|..|p| + |x|];
      assert y == s[|p|..|p| + |y|];
      assert rest == s[|p| + |x|..];
      assert rest2 == s[|p| + |y|..];
    }
  }

  /** Two parts of the same length placed at the same index are equal. */
  lemma PlacedSame(s: string, a: string, b: string, at: nat)
    requires Placed(s, a, at) && Placed(s, b, at) && |a| == |b|
    ensures a == b
  {
  }

  /** Equal texts with the same affixes have the same middle. */
  lemma Infix(a: string, x: string, y: string, b: string)
    requires a + x + b == a + y + b
    ensures x == y
  {
    var s := a + x + b;
    assert x == s[|a|..|a| + |x|];
    assert y == s[|a|..|a| + |y|];
  }

  /** Regrouping a concatenation of four strings. */
  lemma Regroup(a: string, b: string, c: string, d: string)
    ensures a + (b + c + d) == a + b + c + d
  {
  }

  /** Regrouping a concatenation of five strings. */
  lemma RegroupFive(a: string, b: string, c: string, d: string, e: string)
    ensures a + (b + c) + d + e == a + b + c + d + e
  {
  }

  /** A suffix stays a suffix when text is put in front. */
  lemma EndsWithPrefixed(p: string, s: string, t: string)
    requires EndsWith(s, t)
    ensures EndsWith(p + s, t)
  {
    assert (p + s)[|p + s| - |t|..] == s[|s| - |t|..];
  }

  /** A suffix followed by `q` ends the text wrapped in `p` and `q`. */
  lemma EndsWithWrapped(p: string, s: string, t: string, q: string)
    requires EndsWith(s, t)
    ensures EndsWith(p + s + q, t + q)
  {
    var u := s[..|s| - |t|];
    assert s == u + t;
    assert p + s + q == (p + u) + (t + q);
    Affixes(p + u, t + q);
  }

  /** A text that ends with `u` does not end with a `t` whose last character differs from that of `u`. */
  lemma EndsDiffer(s: string, u: string, t: string)
    requires EndsWith(s, u) && u != [] && t != []
    requires u[|u| - 1] != t[|t| - 1]
    ensures !EndsWith(s, t)
  {
    assert s[|s| - 1] == s[|s| - |u|..][|u| - 1];
    if |t| <= |s| {
      assert s[|s| - 1] == s[|s| - |t|..][|t| - 1];
    }
  }

  /** A text that differs from `p` at some position inside both does not start with `p`. */
  lemma StartsDiffer(s: string, p: string, i: nat)
    requires i < |s| && i < |p| && s[i] != p[i]
    ensures !StartsWith(s, p)
  {
    if |p| <= |s| {
      assert s[..|p|][i] == s[i];
    }
  }

  /** Lines between an opening and a closing line, every line ended by a newline. */
  function Framed(open: string, lines: seq<string>, close: string): string
  {
    open + "\n" + Join("\n", lines) + "\n" + close + "\n"
  }

  /** A framed text starts with its opening line and ends with its closing one. */
  lemma FramedEnds(open: string, lines: seq<string>, close: string)
    ensures StartsWith(Framed(open, lines, close), open)
    ensures EndsWith(Framed(open, lines, close), "\n" + close + "\n")
    ensures Framed(open, lines, close)[|Framed(open, lines, close)| - 1] == '\n'
  {
    var rest := "\n" + Join("\n", lines);
    var tail := "\n" + close + "\n";
    assert Framed(open, lines, close) == open + (rest + tail);
    Affixes(open, rest + tail);
    assert Framed(open, lines, close) == (open + rest) + tail;
    Affixes(open + rest, tail);
  }

  /** A framed text read back line by line; no lines leave one empty line. */
  lemma FramedLines(open: string, lines: seq<string>, close: string)
    requires '\n' !in open && '\n' !in close
    requires forall e :: e in lines ==> '\n' !in e
    ensures Split(Framed(open, lines, close), '\n') == [open] + (if lines == [] then [""] else lines) + [close, ""]
  {
    var j := Join("\n", lines);
    var after := close + ['\n'] + "";
    assert Framed(open, lines, close) == open + ['\n'] + (j + ['\n'] + after);
    ClosingLines(close);
    SplitConcat(j, after, '\n');
    if lines != [] {
      SplitJoin(lines, '\n');
    }
    SplitConcat(open, j + ['\n'] + after, '\n');
    SplitWithout(open, '\n');
  }

  /** A last line and its newline split into the line and an empty rest. */
  lemma ClosingLines(close: string)
    requires '\n' !in close
    ensures Split(close + ['\n'] + "", '\n') == [close, ""]
  {
    SplitConcat(close, "", '\n');
    SplitWithout(close, '\n');
  }

  /** Putting the same text in front keeps a prefix. */
  lemma StartsWithPrefixed(p: string, s: string, t: string)
    requires StartsWith(s, t)
    ensures StartsWith(p + s, p + t)
  {
    assert s == t + s[|t|..];
    assert p + s == (p + t) + s[|t|..];
    Affixes(p + t, s[|t|..]);
  }

  /** A prefix of a prefix is a prefix. */
  lemma StartsWithTrans(s: string, p: string, q: string)
    requires StartsWith(s, p) && StartsWith(p, q)
    ensures StartsWith(s, q)
  {
    assert s[..|q|] == s[..|p|][..|q|];
  }

  /** A prefix of a prefix is a prefix. */
  lemma StartsWithShorter(s: string, p: string, q: string)
    requires StartsWith(s, p + q)
    ensures StartsWith(s, p)
  {
    assert s[..|p|] == (p + q)[..|p|];
  }

  /** Where the `i`-th part starts in `Join(sep, parts)`. */
  function Offset(sep: string, parts: seq<string>, i: nat): nat
    requires i < |parts|
  {
    if i == 0 then 0 else |parts[0]| + |sep| + Offset(sep, parts[1..], i - 1)
  }

  lemma JoinTwo(sep: string, a: string, b: string)
    ensures Join(sep, [a, b]) == a + sep + b
  {
    assert [a, b][1..] == [b];
  }

  /** Joining two non-empty lists puts one separator between their joins. */
  lemma {:induction false} JoinAppend(sep: string, a: seq<string>, b: seq<string>)
    requires a != [] && b != []
    ensures Join(sep, a + b) == Join(sep, a) + sep + Join(sep, b)
  {
    assert (a + b)[0] == a[0];
    if |a| == 1 {
      assert (a + b)[1..] == b;
    } else {
      assert (a + b)[1..] == a[1..] + b;
      JoinAppend(sep, a[1..], b);
    }
  }

  /** With a non-empty separator the join is empty only for no parts or a single empty part. */
  lemma JoinEmpty(sep: string, parts: seq<string>)
    requires sep != ""
    ensures Join(sep, parts) == "" <==> parts == [] || parts == [""]
  {
    if |parts| >= 2 {
      assert |Join(sep, parts)| >= |sep|;
    }
  }

  /** A slice past the first operand of a concatenation is a slice of the second. */
  lemma SliceShift(a: string, b: string, lo: nat, hi: nat)
    requires lo <= hi <= |b|
    ensures (a + b)[|a| + lo..|a| + hi] == b[lo..hi]
  {
    assert forall k :: lo <= k < hi ==> (a + b)[|a| + k] == b[k];
  }

  /** Part `i` of a join sits at `Offset(sep, parts, i)`. */
  lemma {:induction false} JoinAt(sep: string, parts: seq<string>, i: nat)
    requires i < |parts|
    ensures Placed(Join(sep, parts), parts[i], Offset(sep, parts, i))
  {
    if |parts| > 1 {
      var lead := parts[0] + sep;
      assert Join(sep, parts) == lead + Join(sep, parts[1..]);
      if i == 0 {
        assert Join(sep, parts)[..|parts[0]|] == parts[0];
      } else {
        JoinAt(sep, parts[1..], i - 1);
        var o := Offset(sep, parts[1..], i - 1);
        assert parts[1..][i - 1] == parts[i];
        SliceShift(lead, Join(sep, parts[1..]), o, o + |parts[i]|);
      }
    }
  }

  /** A separator follows every part but the last, and the next part starts right after it. */
  lemma {:induction false} JoinSeparatorAt(sep: string, parts: seq<string>, i: nat)
    requires i + 1 < |parts|
    ensures Offset(sep, parts, i + 1) == Offset(sep, parts, i) + |parts[i]| + |sep|
    ensures Placed(Join(sep, parts), sep, Offset(sep, parts, i) + |parts[i]|)
  {
    var lead := parts[0] + sep;
    assert Join(sep, parts) == lead + Join(sep, parts[1..]);
    if i == 0 {
      assert Join(sep, parts)[|parts[0]|..|parts[0]| + |sep|] == sep;
    } else {
      JoinSeparatorAt(sep, parts[1..], i - 1);
      var o := Offset(sep, parts[1..], i - 1);
      assert parts[1..][i - 1] == parts[i];
      SliceShift(lead, Join(sep, parts[1..]), o + |parts[i]|, o + |parts[i]| + |sep|);
    }
  }

  /** The last part ends the join. */
  lemma {:induction false} JoinEnd(sep: string, parts: seq<string>)
    requires parts != []
    ensures Offset(sep, parts, |parts| - 1) + |parts[|parts| - 1]| == |Join(sep, parts)|
  {
    if |parts| > 1 {
      JoinEnd(sep, parts[1..]);
    }
  }

  /**
   * `r` is `parts` separated by `sep`: nothing for no parts, otherwise each part
   * at its offset, one separator right after every part but the last, and
   * nothing after the last part.
   */
  predicate Joined(r: string, sep: string, parts: seq<string>)
  {
    && (parts == [] ==> r == "")
    && (forall i :: 0 <= i < |parts| ==> Placed(r, parts[i], Offset(sep, parts, i)))
    && (forall i :: 0 <= i < |parts| - 1 ==> Placed(r, sep, Offset(sep, parts, i) + |parts[i]|))
    && (parts != [] ==> Offset(sep, parts, |parts| - 1) + |parts[|parts| - 1]| == |r|)
  }

  /** A join lays its parts out as `Joined` describes. */
  lemma JoinLayout(sep: string, parts: seq<string>)
    ensures Joined(Join(sep, parts), sep, parts)
  {
    forall i | 0 <= i < |parts|
      ensures Placed(Join(sep, parts), parts[i], Offset(sep, parts, i))
    {
      JoinAt(sep, parts, i);
    }
    forall i | 0 <= i < |parts| - 1
      ensures Placed(Join(sep, parts), sep, Offset(sep, parts, i) + |parts[i]|)
    {
      JoinSeparatorAt(sep, parts, i);
    }
    if parts != [] {
      JoinEnd(sep, parts);
    }
  }

  /** A string without the separator splits into itself. */
  lemma {:induction false} SplitWithout(s: string, c: char)
    requires c !in s
    ensures Split(s, c) == [s]
  {
    if s != [] {
      SplitWithout(s[1..], c);
      assert [s[0]] + s[1..] == s;
    }
  }

  /** Splitting distributes over a separator placed between two strings. */
  lemma {:induction false} SplitConcat(a: string, b: string, c: char)
    ensures Split(a + [c] + b, c) == Split(a, c) + Split(b, c)
  {
    var s := a + [c] + b;
    if a == [] {
      assert s[1..] == b;
    } else {
      var ra, rb := Split(a[1..], c), Split(b, c);
      assert Split(s[1..], c) == ra + rb by {
        assert s[1..] == a[1..] + [c] + b;
        SplitConcat(a[1..], b, c);
      }
      assert s[0] == a[0];
      if a[0] == c {
        assert Split(s, c) == [""] + (ra + rb);
        Assoc([""], ra, rb);
      } else {
        var head: seq<string> := [[a[0]] + ra[0]];
        assert (ra + rb)[0] == ra[0];
        assert (ra + rb)[1..] == ra[1..] + rb;
        assert Split(s, c) == head + (ra[1..] + rb);
        assert Split(a, c) == head + ra[1..];
        Assoc(head, ra[1..], rb);
      }
    }
  }

  /** Splitting undoes joining when no part contains the separator. */
  lemma {:induction false} SplitJoin(parts: seq<string>, c: char)
    requires parts != []
    requires forall p :: p in parts ==> c !in p
    ensures Split(Join([c], parts), c) == parts
  {
    if |parts| == 1 {
      SplitWithout(parts[0], c);
    } else {
      assert parts == [parts[0]] + parts[1..];
      SplitJoin(parts[1..], c);
      SplitWithout(parts[0], c);
      SplitConcat(parts[0], Join([c], parts[1..]), c);
    }
  }

  /** The first separator divides a string into what precedes and what follows it. */
  lemma {:induction false} SplitFirstAt(x: string, y: string, c: char)
    requires c !in x
    ensures SplitFirst(x + [c] + y, c) == (x, y)
  {
    var s := x + [c] + y;
    if x == [] {
      assert s[1..] == y;
    } else {
      assert s[0] == x[0];
      assert s[1..] == x[1..] + [c] + y;
      SplitFirstAt(x[1..], y, c);
      assert SplitFirst(s, c) == ([x[0]] + x[1..], y);
      assert [x[0]] + x[1..] == x;
    }
  }
}
