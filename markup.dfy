/**
 * The attribute and tag formatting shared by every SVG element builder
 * (`create_arg`, `create_args`, `generic_tag`), with Python's keyword-argument
 * dict modelled as an ordered list of (name, value) pairs.
 */
module Markup {
  import opened Wrappers
  import Strings

  /** One keyword argument: its name and its already-rendered value, None for Python's None. */
  type Arg = (string, Option<string>)

  /** `name.replace('_', '-')`. */
  function Hyphenate(name: string): (r: string)
    ensures |r| == |name|
    ensures forall i :: 0 <= i < |name| ==> r[i] == if name[i] == '_' then '-' else name[i]
  {
    if name == [] then [] else [if name[0] == '_' then '-' else name[0]] + Hyphenate(name[1..])
  }

  /** A name without underscores is rendered as it is (`xlink:href` for one). */
  lemma HyphenateKeeps(name: string)
    requires '_' !in name
    ensures Hyphenate(name) == name
  {
    assert forall i :: 0 <= i < |name| ==> Hyphenate(name)[i] == name[i];
  }

  /** `create_arg`: `name="value"` with hyphens for underscores, or nothing for None. */
  function CreateArg(a: Arg): (r: string)
    ensures a.1.None? <==> r == ""
    ensures a.1.Some? ==> |r| == |a.0| + |a.1.value| + 3
    ensures a.1.Some? ==> r[..|a.0|] == Hyphenate(a.0) && r[|a.0|..] == "=\"" + a.1.value + "\""
  {
    match a.1
    case None => ""
    case Some(v) =>
      var r := Hyphenate(a.0) + "=\"" + v + "\"";
      assert r[..|a.0|] == Hyphenate(a.0);
      r
  }

  /** The attribute fragments in argument order, the empty ones of None values included. */
  function Fragments(args: seq<Arg>): (r: seq<string>)
    ensures |r| == |args|
    ensures forall i :: 0 <= i < |args| ==> r[i] == CreateArg(args[i])
  {
    if args == [] then [] else [CreateArg(args[0])] + Fragments(args[1..])
  }

  /** `create_args`: the fragments joined by single spaces behind one leading space, or nothing. */
  function CreateArgs(args: seq<Arg>): (r: string)
    ensures r == "" <==> args == [] || (|args| == 1 && args[0].1.None?)
    ensures r != "" ==> r[0] == ' ' && r[1..] == Strings.Join(" ", Fragments(args))
    ensures r != "" ==> r == " " + Strings.Join(" ", Fragments(args))
  {
    var res := Strings.Join(" ", Fragments(args));
    Strings.JoinEmpty(" ", Fragments(args));
    if res == "" then "" else " " + res
  }

  /** An argument with a value appended to a non-empty list comes last, after one more space. */
  lemma CreateArgsAppend(args: seq<Arg>, a: Arg)
    requires a.1.Some?
    ensures args == [] ==> CreateArgs(args + [a]) == " " + CreateArg(a)
    ensures args != [] ==> CreateArgs(args + [a]) == " " + Strings.Join(" ", Fragments(args)) + " " + CreateArg(a)
  {
    if args == [] {
      CreateArgsSingle(a);
      assert args + [a] == [a];
    } else {
      CreateArgsMore(args, a);
    }
  }

  lemma CreateArgsSingle(a: Arg)
    requires a.1.Some?
    ensures CreateArgs([a]) == " " + CreateArg(a)
  {
    assert Fragments([a]) == [CreateArg(a)];
  }

  lemma CreateArgsMore(args: seq<Arg>, a: Arg)
    requires a.1.Some? && args != []
    ensures CreateArgs(args + [a]) == " " + Strings.Join(" ", Fragments(args)) + " " + CreateArg(a)
  {
    FragmentsAppend(args, a);
    var fs := Fragments(args);
    var last := CreateArg(a);
    Strings.JoinAppend(" ", fs, [last]);
    assert Strings.Join(" ", fs + [last]) == Strings.Join(" ", fs) + " " + last;
    assert |args + [a]| >= 2;
    assert CreateArgs(args + [a]) == " " + Strings.Join(" ", fs + [last]);
    Strings.Regroup(" ", Strings.Join(" ", fs), " ", last);
  }

  lemma FragmentsAppend(args: seq<Arg>, a: Arg)
    ensures Fragments(args + [a]) == Fragments(args) + [CreateArg(a)]
  {
    assert forall i :: 0 <= i < |args| ==> (args + [a])[i] == args[i];
  }

  /** An argument with a value appended comes last, after one space. */
  lemma CreateArgsLast(args: seq<Arg>, a: Arg)
    requires a.1.Some?
    ensures Strings.EndsWith(CreateArgs(args + [a]), " " + CreateArg(a))
  {
    var c := CreateArg(a);
    var before := if args == [] then "" else " " + Strings.Join(" ", Fragments(args));
    assert CreateArgs(args + [a]) == before + (" " + c) by {
      CreateArgsAppend(args, a);
      if args == [] {
        assert "" + (" " + c) == " " + c;
      } else {
        Strings.Assoc(before, " ", c);
      }
    }
    Strings.Affixes(before, " " + c);
  }

  /** An argument with a value at the front is rendered first, right after the leading space. */
  lemma CreateArgsFirst(a: Arg, rest: seq<Arg>)
    requires a.1.Some?
    ensures Strings.StartsWith(CreateArgs([a] + rest), " " + CreateArg(a))
  {
    var fs := Fragments([a] + rest);
    assert fs[0] == CreateArg(a);
    Strings.JoinAt(" ", fs, 0);
    var r := CreateArgs([a] + rest);
    assert r[1..][..|CreateArg(a)|] == CreateArg(a);
    assert r[..1 + |CreateArg(a)|] == " " + CreateArg(a);
  }

  /** A None value between two set ones leaves its separator behind: two spaces. */
  lemma NoneKeepsSeparator(a: Arg, n: string, b: Arg)
    requires a.1.Some? && b.1.Some?
    ensures CreateArgs([a, (n, None), b]) == " " + CreateArg(a) + "  " + CreateArg(b)
  {
    var args: seq<Arg> := [a, (n, None), b];
    var x, y := CreateArg(a), CreateArg(b);
    var fs := Fragments(args);
    assert fs == [x, "", y];
    assert fs[1..] == ["", y];
    Strings.JoinTwo(" ", "", y);
    assert Strings.Join(" ", fs) == x + " " + ("" + " " + y);
    assert "" + " " + y == " " + y;
    assert " " + " " + y == "  " + y;
    Strings.Regroup(" ", x, " ", " " + y);
  }

  /** The closing tag of an element. */
  function Closing(name: string): string
  {
    "</" + name + ">"
  }

  /**
   * The two shapes of a tag: self-closing `<name args />` without children, and
   * otherwise `<name args>`, the children one per line, and `</name>`.
   */
  predicate Container(r: string, name: string, children: seq<string>, args: seq<Arg>)
  {
    && (children == [] ==> r == "<" + name + CreateArgs(args) + " />")
    && (children != [] ==> r == Strings.Framed("<" + name + CreateArgs(args) + ">", children, Closing(name)))
  }

  /**
   * `generic_tag`: a self-closing `<name args />` when `embed` is empty, and
   * otherwise a container whose children stand one per line.
   */
  function GenericTag(name: string, embed: seq<string>, args: seq<Arg>): (r: string)
    ensures Strings.StartsWith(r, "<" + name + CreateArgs(args))
    ensures embed == [] <==> Strings.EndsWith(r, " />")
    ensures embed != [] <==> Strings.EndsWith(r, "\n" + Closing(name) + "\n")
    ensures Container(r, name, embed, args)
  {
    var open := "<" + name + CreateArgs(args);
    var close := "\n" + Closing(name) + "\n";
    assert close[|close| - 1] == '\n';
    if embed != [] then
      var r := Strings.Framed(open + ">", embed, Closing(name));
      Strings.FramedEnds(open + ">", embed, Closing(name));
      Strings.StartsWithShorter(r, open, ">");
      Strings.EndsDiffer(r, close, " />");
      r
    else
      var r := open + " />";
      Strings.Affixes(open, " />");
      Strings.EndsDiffer(r, " />", close);
      r
  }

  /**
   * A container tag read line by line: the opening tag, each child on a line
   * of its own in order, the closing tag, then nothing (the trailing newline).
   */
  lemma ContainerLines(name: string, embed: seq<string>, args: seq<Arg>)
    requires embed != []
    requires '\n' !in name && '\n' !in CreateArgs(args)
    requires forall e :: e in embed ==> '\n' !in e
    ensures Strings.Split(GenericTag(name, embed, args), '\n') ==
            ["<" + name + CreateArgs(args) + ">"] + embed + [Closing(name), ""]
  {
    Strings.FramedLines("<" + name + CreateArgs(args) + ">", embed, Closing(name));
  }

  // ---- Python dict operations on keyword arguments ----

  function Names(args: seq<Arg>): (r: seq<string>)
    ensures |r| == |args|
    ensures forall i :: 0 <= i < |args| ==> r[i] == args[i].0
  {
    if args == [] then [] else [args[0].0] + Names(args[1..])
  }

  /** Keyword arguments form a dict: no name twice. */
  predicate Distinct(args: seq<Arg>)
  {
    forall i, j :: 0 <= i < j < |args| ==> args[i].0 != args[j].0
  }

  /** `d[k]`: the value stored under `k`. */
  function Lookup(args: seq<Arg>, k: string): (r: Option<string>)
    requires k in Names(args)
    ensures (k, r) in args
  {
    if args[0].0 == k then args[0].1 else Lookup(args[1..], k)
  }

  /** `d[k] = v`: overwrite `k` where it stands, or append it when absent. */
  function DictSet(args: seq<Arg>, k: string, v: Option<string>): (r: seq<Arg>)
    ensures |r| == if k in Names(args) then |args| else |args| + 1
    ensures k in Names(r) && Lookup(r, k) == v
  {
    if args == [] then [(k, v)]
    else if args[0].0 == k then [(k, v)] + args[1..]
    else [args[0]] + DictSet(args[1..], k, v)
  }

  /** `d.pop(k)` for the dict itself: drop the entry of `k`. */
  function DictPop(args: seq<Arg>, k: string): (r: seq<Arg>)
    ensures |r| == if k in Names(args) then |args| - 1 else |args|
    ensures k !in Names(args) ==> r == args
  {
    if args == [] then []
    else if args[0].0 == k then args[1..]
    else [args[0]] + DictPop(args[1..], k)
  }

  /** `d.update(extra)`: the entries of `extra` set one after the other. */
  function Update(args: seq<Arg>, extra: seq<Arg>): (r: seq<Arg>)
    ensures extra == [] ==> r == args
    ensures extra != [] ==> extra[|extra| - 1].0 in Names(r) && Lookup(r, extra[|extra| - 1].0) == extra[|extra| - 1].1
    decreases |extra|
  {
    if extra == [] then args
    else
      var rest := extra[1..];
      assert rest != [] ==> rest[|rest| - 1] == extra[|extra| - 1];
      Update(DictSet(args, extra[0].0, extra[0].1), rest)
  }

  /** Reference for `update`: the value of the last entry of `extra` named `k`. */
  function LastValue(extra: seq<Arg>, k: string): Option<string>
    requires k in Names(extra)
  {
    if k in Names(extra[1..]) then LastValue(extra[1..], k) else extra[0].1
  }

  /** Setting one key leaves the value of every other key alone. */
  lemma {:induction false} DictSetOther(args: seq<Arg>, k: string, k': string, v: Option<string>)
    requires k in Names(args) && k != k'
    ensures k in Names(DictSet(args, k', v)) && Lookup(DictSet(args, k', v), k) == Lookup(args, k)
  {
    var rest := args[1..];
    if args[0].0 != k && args[0].0 != k' {
      DictSetOther(rest, k, k', v);
      assert DictSet(args, k', v) == [args[0]] + DictSet(rest, k', v);
    }
  }

  /** Setting a key adds no name but that key. */
  lemma {:induction false} DictSetNames(args: seq<Arg>, k: string, v: Option<string>, n: string)
    requires n in Names(DictSet(args, k, v))
    ensures n == k || n in Names(args)
  {
    if args != [] && args[0].0 != k && n != args[0].0 {
      assert n in Names(DictSet(args[1..], k, v));
      DictSetNames(args[1..], k, v, n);
    }
  }

  /** `update` keeps the value of every key that `extra` does not name. */
  lemma {:induction false} UpdateKeeps(args: seq<Arg>, extra: seq<Arg>, k: string)
    requires k in Names(args) && k !in Names(extra)
    ensures k in Names(Update(args, extra)) && Lookup(Update(args, extra), k) == Lookup(args, k)
    decreases |extra|
  {
    if extra != [] {
      var d := DictSet(args, extra[0].0, extra[0].1);
      assert extra[0].0 != k;
      DictSetOther(args, k, extra[0].0, extra[0].1);
      assert k !in Names(extra[1..]);
      UpdateKeeps(d, extra[1..], k);
    }
  }

  /** After `update`, every key of `extra` holds its last value there. */
  lemma {:induction false} UpdateLast(args: seq<Arg>, extra: seq<Arg>, k: string)
    requires k in Names(extra)
    ensures k in Names(Update(args, extra)) && Lookup(Update(args, extra), k) == LastValue(extra, k)
    decreases |extra|
  {
    var d := DictSet(args, extra[0].0, extra[0].1);
    if k in Names(extra[1..]) {
      UpdateLast(d, extra[1..], k);
    } else {
      assert extra[0].0 == k;
      UpdateKeeps(d, extra[1..], k);
    }
  }

  /** `update` adds no key but those of `extra`. */
  lemma {:induction false} UpdateNames(args: seq<Arg>, extra: seq<Arg>, n: string)
    requires n in Names(Update(args, extra))
    ensures n in Names(args) || n in Names(extra)
    decreases |extra|
  {
    if extra != [] {
      var d := DictSet(args, extra[0].0, extra[0].1);
      UpdateNames(d, extra[1..], n);
      if n in Names(d) {
        DictSetNames(args, extra[0].0, extra[0].1, n);
      }
    }
  }

  /** Reference for removal: every entry not named `k`, in the original order. */
  function Without(args: seq<Arg>, k: string): (r: seq<Arg>)
    ensures forall a :: a in r <==> a in args && a.0 != k
  {
    if args == [] then []
    else (if args[0].0 == k then [] else [args[0]]) + Without(args[1..], k)
  }

  /** Setting a new key appends it at the end. */
  lemma {:induction false} DictSetAbsent(args: seq<Arg>, k: string, v: Option<string>)
    requires k !in Names(args)
    ensures DictSet(args, k, v) == args + [(k, v)]
  {
    if args != [] {
      assert Names(args[1..]) == Names(args)[1..];
      DictSetAbsent(args[1..], k, v);
      assert args == [args[0]] + args[1..];
    }
  }

  /** Setting an existing key replaces its value in place. */
  lemma {:induction false} DictSetPresent(args: seq<Arg>, i: nat, v: Option<string>)
    requires Distinct(args)
    requires i < |args|
    ensures DictSet(args, args[i].0, v) == args[i := (args[i].0, v)]
  {
    var k := args[i].0;
    if i == 0 {
      assert args[0 := (k, v)] == [(k, v)] + args[1..];
    } else {
      var rest := args[1..];
      DistinctTail(args);
      assert rest[i - 1] == args[i];
      DictSetPresent(rest, i - 1, v);
      assert args[0].0 != k;
      UpdateTail(args, i, (k, v));
    }
  }

  /** The tail of a dict is a dict. */
  lemma DistinctTail(args: seq<Arg>)
    requires Distinct(args) && args != []
    ensures Distinct(args[1..])
  {
    assert forall p, q :: 0 <= p < q < |args| - 1 ==> args[1..][p] == args[p + 1] && args[1..][q] == args[q + 1];
  }

  /** Replacing an element past the head replaces it in the tail. */
  lemma UpdateTail(args: seq<Arg>, i: nat, a: Arg)
    requires 0 < i < |args|
    ensures args[i := a] == [args[0]] + args[1..][i - 1 := a]
  {
  }

  /** In a dict, popping a key is the same as filtering it out. */
  lemma {:induction false} DictPopWithout(args: seq<Arg>, k: string)
    requires Distinct(args)
    ensures DictPop(args, k) == Without(args, k)
  {
    if args != [] {
      DistinctTail(args);
      DictPopWithout(args[1..], k);
      if args[0].0 == k {
        assert forall a :: a in args[1..] ==> a.0 != k by {
          forall a | a in args[1..] ensures a.0 != k {
            var q :| 0 <= q < |args[1..]| && args[1..][q] == a;
            assert args[q + 1] == a;
          }
        }
        WithoutNothing(args[1..], k);
      }
    }
  }

  /** Filtering out a name that does not occur changes nothing. */
  lemma {:induction false} WithoutNothing(args: seq<Arg>, k: string)
    requires forall a :: a in args ==> a.0 != k
    ensures Without(args, k) == args
  {
    if args != [] {
      WithoutNothing(args[1..], k);
      assert args == [args[0]] + args[1..];
    }
  }
}
