/**
 * The style record of tinysvg: eleven presentation properties, each either
 * unset (None) or holding an already-rendered value, two of them checked
 * against a fixed word list, serialised as `name:value` pairs joined by `;`.
 */
module StyleModel {
  import opened Wrappers
  import Strings

  /** The eleven presentation properties, in the order `_empty` declares them. */
  datatype Key =
    | Fill | FillRule | FillOpacity
    | Stroke | StrokeOpacity | StrokeWidth
    | StrokeLinecap | StrokeLinejoin | StrokeMiterlimit
    | StrokeDasharray | StrokeDashoffset

  /** The property's name as tinysvg spells it; serialisation keeps the underscores. */
  function Name(k: Key): (r: string)
    ensures r != [] && ';' !in r && ':' !in r
  {
    match k
    case Fill => "fill"
    case FillRule => "fill_rule"
    case FillOpacity => "fill_opacity"
    case Stroke => "stroke"
    case StrokeOpacity => "stroke_opacity"
    case StrokeWidth => "stroke_width"
    case StrokeLinecap => "stroke_linecap"
    case StrokeLinejoin => "stroke_linejoin"
    case StrokeMiterlimit => "stroke_miterlimit"
    case StrokeDasharray => "stroke_dasharray"
    case StrokeDashoffset => "stroke_dashoffset"
  }

  /** The key a property name denotes, if any. */
  function KeyOf(name: string): Option<Key>
  {
    if name == "fill" then Some(Fill)
    else if name == "fill_rule" then Some(FillRule)
    else if name == "fill_opacity" then Some(FillOpacity)
    else if name == "stroke" then Some(Stroke)
    else if name == "stroke_opacity" then Some(StrokeOpacity)
    else if name == "stroke_width" then Some(StrokeWidth)
    else if name == "stroke_linecap" then Some(StrokeLinecap)
    else if name == "stroke_linejoin" then Some(StrokeLinejoin)
    else if name == "stroke_miterlimit" then Some(StrokeMiterlimit)
    else if name == "stroke_dasharray" then Some(StrokeDasharray)
    else if name == "stroke_dashoffset" then Some(StrokeDashoffset)
    else None
  }

  lemma KeyOfName(k: Key)
    ensures KeyOf(Name(k)) == Some(k)
  {
  }

  /** Declaration order of `_empty`, which is also the order of serialisation. */
  const Declared: seq<Key> :=
    [Fill, FillRule, FillOpacity, Stroke, StrokeOpacity, StrokeWidth,
     StrokeLinecap, StrokeLinejoin, StrokeMiterlimit, StrokeDasharray, StrokeDashoffset]

  /** Every key is declared, and each exactly once. */
  lemma DeclaredOnce()
    ensures forall k: Key :: k in Declared
    ensures forall i, j :: 0 <= i < j < |Declared| ==> Declared[i] != Declared[j]
  {
    forall k: Key ensures k in Declared {
      match k
      case Fill => assert Declared[0] == k;
      case FillRule => assert Declared[1] == k;
      case FillOpacity => assert Declared[2] == k;
      case Stroke => assert Declared[3] == k;
      case StrokeOpacity => assert Declared[4] == k;
      case StrokeWidth => assert Declared[5] == k;
      case StrokeLinecap => assert Declared[6] == k;
      case StrokeLinejoin => assert Declared[7] == k;
      case StrokeMiterlimit => assert Declared[8] == k;
      case StrokeDasharray => assert Declared[9] == k;
      case StrokeDashoffset => assert Declared[10] == k;
    }
  }

  /** The contents of a style: one optional value per key. */
  type Values = map<Key, Option<string>>

  /** The key set is the full, fixed set of properties. */
  predicate Total(m: Values)
  {
    forall k: Key :: k in m
  }

  /** `Style._empty`: every property unset. */
  function Empty(): (m: Values)
    ensures Total(m)
    ensures forall k: Key :: m[k] == None
  {
    DeclaredOnce();
    map k | k in Declared :: None
  }

  /** How Python's f-string shows a value that may be `None`. */
  function Show(v: Option<string>): string
  {
    match v
    case None => "None"
    case Some(s) => s
  }

  datatype StyleError = StyleError(message: string)

  /** The words a property's setter accepts, or None when it accepts anything. */
  function Allowed(k: Key): Option<set<string>>
  {
    match k
    case StrokeLinecap => Some({"butt", "round", "square"})
    case StrokeMiterlimit => Some({"miter", "round", "bevel"})
    case _ => None
  }

  /** Whether the setter of `k` accepts `v`; `None` is not among any word list. */
  predicate Accepts(k: Key, v: Option<string>)
  {
    Allowed(k).None? || (v.Some? && v.value in Allowed(k).value)
  }

  /** The error a checked setter raises, with tinysvg's wording. */
  function Rejection(k: Key, v: Option<string>): StyleError
    requires Allowed(k).Some?
  {
    var property := if k == StrokeLinecap then "stoke-linecap" else "stoke-miterlimit";
    StyleError("\"" + Show(v) + "\" is not an allowed " + property)
  }

  /** One setter applied to a style's contents: the new contents, or the error raised. */
  function Assign(m: Values, k: Key, v: Option<string>): (r: Result<Values, StyleError>)
    requires Total(m)
    ensures r.Success? <==> Accepts(k, v)
    ensures r.Success? ==> Total(r.value) && r.value[k] == v &&
                           forall j :: j != k ==> r.value[j] == m[j]
    ensures r.Failure? ==> Allowed(k).Some? && r.error == Rejection(k, v)
  {
    if Accepts(k, v) then Success(m[k := v]) else Failure(Rejection(k, v))
  }

  /** The `stroke_linecap` setter accepts exactly butt, round and square. */
  lemma LinecapSetter(m: Values, v: Option<string>)
    requires Total(m)
    ensures Assign(m, StrokeLinecap, v).Success? <==>
            v == Some("butt") || v == Some("round") || v == Some("square")
  {
  }

  /** The `stroke_miterlimit` setter accepts exactly the linejoin words miter, round and bevel. */
  lemma MiterlimitSetter(m: Values, v: Option<string>)
    requires Total(m)
    ensures Assign(m, StrokeMiterlimit, v).Success? <==>
            v == Some("miter") || v == Some("round") || v == Some("bevel")
  {
  }

  /** The `name:value` pair of `k`, if `k` is set. */
  function PairOf(m: Values, k: Key): seq<string>
    requires Total(m)
  {
    match m[k]
    case None => []
    case Some(v) => [Name(k) + ":" + v]
  }

  /** The `name:value` pairs of the set properties among `ks`, in the order of `ks`. */
  function Pairs(m: Values, ks: seq<Key>): seq<string>
    requires Total(m)
  {
    if ks == [] then [] else PairOf(m, ks[0]) + Pairs(m, ks[1..])
  }

  /**
   * `Style.__str__`: the pairs of the set properties in declaration order,
   * joined by `;`; empty exactly when no property is set.
   */
  function StyleString(m: Values): (r: string)
    requires Total(m)
    ensures r == "" <==> forall k: Key :: m[k] == None
  {
    DeclaredOnce();
    PairsShape(m, Declared);
    PairsNone(m, Declared);
    Strings.JoinEmpty(";", Pairs(m, Declared));
    assert Pairs(m, Declared) != [""] by {
      assert "" !in Pairs(m, Declared);
    }
    Strings.Join(";", Pairs(m, Declared))
  }

  /** No pair is empty, and none contains `;` when no value does. */
  lemma {:induction false} PairsShape(m: Values, ks: seq<Key>)
    requires Total(m)
    ensures forall p :: p in Pairs(m, ks) ==> p != ""
    ensures (forall k :: m[k].Some? ==> ';' !in m[k].value) ==>
              forall p :: p in Pairs(m, ks) ==> ';' !in p
  {
    if ks != [] {
      PairsShape(m, ks[1..]);
    }
  }

  /** There are no pairs exactly when every listed property is unset. */
  lemma {:induction false} PairsNone(m: Values, ks: seq<Key>)
    requires Total(m)
    ensures Pairs(m, ks) == [] <==> forall k :: k in ks ==> m[k] == None
  {
    if ks != [] {
      PairsNone(m, ks[1..]);
      assert forall k :: k in ks ==> k == ks[0] || k in ks[1..];
    }
  }

  /** A fresh style serialises to the empty string. */
  lemma EmptyStyleString()
    ensures StyleString(Empty()) == ""
  {
  }

  /** The pairs of a concatenation of key lists are the concatenated pairs. */
  lemma {:induction false} PairsAppend(m: Values, a: seq<Key>, b: seq<Key>)
    requires Total(m)
    ensures Pairs(m, a + b) == Pairs(m, a) + Pairs(m, b)
  {
    if a != [] {
      assert (a + b)[0] == a[0];
      assert (a + b)[1..] == a[1..] + b;
      PairsAppend(m, a[1..], b);
      assert Pairs(m, a + b) == PairOf(m, a[0]) + (Pairs(m, a[1..]) + Pairs(m, b));
      Strings.Assoc(PairOf(m, a[0]), Pairs(m, a[1..]), Pairs(m, b));
    } else {
      assert a + b == b;
    }
  }

  /** The pairs of a single key. */
  lemma PairsOne(m: Values, k: Key)
    requires Total(m)
    ensures Pairs(m, [k]) == PairOf(m, k)
  {
    assert [k][1..] == [];
  }

  /** Unset keys around one key contribute nothing: only its pair remains. */
  lemma PairsOnly(m: Values, a: seq<Key>, k: Key, c: seq<Key>)
    requires Total(m)
    requires forall x :: x in a ==> m[x] == None
    requires forall x :: x in c ==> m[x] == None
    ensures Pairs(m, a + [k] + c) == PairOf(m, k)
  {
    PairsNone(m, a);
    PairsNone(m, c);
    PairsOne(m, k);
    PairsAppend(m, a, [k]);
    PairsAppend(m, a + [k], c);
  }

  /**
   * Among distinct keys with only `ks[i]` and `ks[j]` set, `i < j`, the pairs
   * are those two, in the order of `ks`.
   */
  lemma PairsTwo(m: Values, ks: seq<Key>, i: nat, j: nat)
    requires Total(m)
    requires i < j < |ks|
    requires forall p, q :: 0 <= p < q < |ks| ==> ks[p] != ks[q]
    requires forall k :: k in ks && k != ks[i] && k != ks[j] ==> m[k] == None
    ensures Pairs(m, ks) == PairOf(m, ks[i]) + PairOf(m, ks[j])
  {
    PairsBefore(m, ks, i, j);
    PairsFrom(m, ks, i, j);
    PairsSplitAt(m, ks, j, PairOf(m, ks[i]), PairOf(m, ks[j]));
  }

  /** The pairs of a key list are those of its two halves around `j`. */
  lemma PairsSplitAt(m: Values, ks: seq<Key>, j: nat, x: seq<string>, y: seq<string>)
    requires Total(m)
    requires j <= |ks|
    requires Pairs(m, ks[..j]) == x && Pairs(m, ks[j..]) == y
    ensures Pairs(m, ks) == x + y
  {
    Strings.Halves(ks, j);
    PairsAppend(m, ks[..j], ks[j..]);
  }

  /** Under the conditions of `PairsTwo`, the keys before `ks[j]` contribute only the pair of `ks[i]`. */
  lemma PairsBefore(m: Values, ks: seq<Key>, i: nat, j: nat)
    requires Total(m)
    requires i < j < |ks|
    requires forall p, q :: 0 <= p < q < |ks| ==> ks[p] != ks[q]
    requires forall k :: k in ks && k != ks[i] && k != ks[j] ==> m[k] == None
    ensures Pairs(m, ks[..j]) == PairOf(m, ks[i])
  {
    var a, b := ks[..i], ks[i + 1..j];
    UnsetSlice(m, ks, 0, i, i, j);
    UnsetSlice(m, ks, i + 1, j, i, j);
    assert ks[..j] == a + [ks[i]] + b;
    PairsOnly(m, a, ks[i], b);
  }

  /** Under the conditions of `PairsTwo`, the keys from `ks[j]` on contribute only the pair of `ks[j]`. */
  lemma PairsFrom(m: Values, ks: seq<Key>, i: nat, j: nat)
    requires Total(m)
    requires i < j < |ks|
    requires forall p, q :: 0 <= p < q < |ks| ==> ks[p] != ks[q]
    requires forall k :: k in ks && k != ks[i] && k != ks[j] ==> m[k] == None
    ensures Pairs(m, ks[j..]) == PairOf(m, ks[j])
  {
    var c := ks[j + 1..];
    UnsetSlice(m, ks, j + 1, |ks|, i, j);
    assert ks[j..] == [] + [ks[j]] + c;
    PairsOnly(m, [], ks[j], c);
  }

  /** A slice that leaves out positions `i` and `j` of distinct keys holds only unset keys. */
  lemma UnsetSlice(m: Values, ks: seq<Key>, lo: nat, hi: nat, i: nat, j: nat)
    requires Total(m)
    requires lo <= hi <= |ks| && i < |ks| && j < |ks|
    requires (i < lo || hi <= i) && (j < lo || hi <= j)
    requires forall p, q :: 0 <= p < q < |ks| ==> ks[p] != ks[q]
    requires forall k :: k in ks && k != ks[i] && k != ks[j] ==> m[k] == None
    ensures forall x :: x in ks[lo..hi] ==> m[x] == None
  {
    forall x | x in ks[lo..hi] ensures m[x] == None {
      var p :| 0 <= p < hi - lo && ks[lo..hi][p] == x;
      assert ks[lo + p] == x;
      assert x in ks;
    }
  }

  /** Contents with only fill and stroke_width set have exactly those two pairs, fill first. */
  lemma FillAndStrokeWidthPairs(m: Values, fill: string, width: string)
    requires Total(m)
    requires m[Fill] == Some(fill) && m[StrokeWidth] == Some(width)
    requires forall k :: k != Fill && k != StrokeWidth ==> m[k] == None
    ensures Pairs(m, Declared) == [Name(Fill) + ":" + fill, Name(StrokeWidth) + ":" + width]
  {
    DeclaredOnce();
    assert Declared[0] == Fill && Declared[5] == StrokeWidth;
    PairsTwo(m, Declared, 0, 5);
    assert PairOf(m, Fill) == [Name(Fill) + ":" + fill];
  }

  /** Contents with only fill and stroke_width set serialise fill first. */
  lemma FillAndStrokeWidth(m: Values, fill: string, width: string)
    requires Total(m)
    requires m[Fill] == Some(fill) && m[StrokeWidth] == Some(width)
    requires forall k :: k != Fill && k != StrokeWidth ==> m[k] == None
    ensures StyleString(m) == "fill:" + fill + ";stroke_width:" + width
  {
    FillAndStrokeWidthPairs(m, fill, width);
    var a, b := Name(Fill) + ":" + fill, Name(StrokeWidth) + ":" + width;
    Strings.JoinTwo(";", a, b);
    TwoPairsText(Name(Fill) + ":", fill, Name(StrokeWidth) + ":", width);
    assert Name(Fill) + ":" == "fill:";
    assert ";" + (Name(StrokeWidth) + ":") == ";stroke_width:";
  }

  /** Proof aid for `FillAndStrokeWidth`: regrouping two `name:value` pairs joined by `;`. */
  lemma TwoPairsText(p: string, x: string, q: string, y: string)
    ensures (p + x) + ";" + (q + y) == p + x + (";" + q) + y
  {
  }

  /** Order comes from the declaration, not from the order of setting: fill before stroke_width. */
  lemma StrokeWidthThenFill()
    ensures StyleString(Empty()[StrokeWidth := Some("2")][Fill := Some("red")]) == "fill:red;stroke_width:2"
  {
    var e := Empty();
    var m := e[StrokeWidth := Some("2")][Fill := Some("red")];
    forall k | k != Fill && k != StrokeWidth ensures m[k] == None {
      assert m[k] == e[k];
    }
    FillAndStrokeWidth(m, "red", "2");
    RedTwo();
  }

  /** Proof aid for `StrokeWidthThenFill`: the pieces `FillAndStrokeWidth` yields for fill red and width 2, as one literal. */
  lemma RedTwo()
    ensures "fill:" + "red" + ";stroke_width:" + "2" == "fill:red;stroke_width:2"
  {
  }

  // ---- Parsing a serialisation back: the reference that StyleString loses nothing ----

  /** A `name:value` pair read back, if its name is a property name. */
  function ParsePair(p: string): Option<(Key, string)>
  {
    var (name, value) := Strings.SplitFirst(p, ':');
    match KeyOf(name)
    case None => None
    case Some(k) => Some((k, value))
  }

  /** One pair read back into `m`; a pair that names no property is ignored. */
  function Store(m: Values, p: string): (r: Values)
    requires Total(m)
    ensures Total(r)
  {
    match ParsePair(p)
    case None => m
    case Some(kv) => m[kv.0 := Some(kv.1)]
  }

  /** Pairs read back one by one into `m`, later ones overriding earlier ones. */
  function Load(m: Values, ps: seq<string>): (r: Values)
    requires Total(m)
    ensures Total(r)
  {
    if ps == [] then m else Load(Store(m, ps[0]), ps[1..])
  }

  /** A style string read back into the contents it describes. */
  function ParseStyle(s: string): (r: Values)
    ensures Total(r)
  {
    Load(Empty(), if s == "" then [] else Strings.Split(s, ';'))
  }

  lemma {:induction false} LoadAppend(m: Values, a: seq<string>, b: seq<string>)
    requires Total(m)
    ensures Load(m, a + b) == Load(Load(m, a), b)
  {
    if a != [] {
      assert (a + b)[0] == a[0];
      assert (a + b)[1..] == a[1..] + b;
      assert Load(m, a + b) == Load(Store(m, a[0]), a[1..] + b);
      LoadAppend(Store(m, a[0]), a[1..], b);
      assert Load(m, a) == Load(Store(m, a[0]), a[1..]);
    } else {
      assert a + b == b;
    }
  }

  /** Reading back the pairs of `ks` sets exactly the properties of `ks` that `m` sets. */
  lemma {:induction false} LoadPairs(base: Values, m: Values, ks: seq<Key>)
    requires Total(base) && Total(m)
    requires forall i, j :: 0 <= i < j < |ks| ==> ks[i] != ks[j]
    ensures forall j: Key :: Load(base, Pairs(m, ks))[j] == if j in ks && m[j].Some? then m[j] else base[j]
  {
    if ks != [] {
      var k := ks[0];
      var here := PairOf(m, k);
      assert Pairs(m, ks) == here + Pairs(m, ks[1..]);
      LoadAppend(base, here, Pairs(m, ks[1..]));
      var base' := Load(base, here);
      if m[k].Some? {
        Strings.SplitFirstAt(Name(k), m[k].value, ':');
        assert Name(k) + ":" + m[k].value == Name(k) + [':'] + m[k].value;
        KeyOfName(k);
        assert Store(base, here[0]) == base[k := m[k]];
        assert base' == base[k := m[k]];
      } else {
        assert base' == base;
      }
      assert forall i :: 0 <= i < |ks[1..]| ==> ks[1..][i] == ks[i + 1];
      assert k !in ks[1..];
      LoadPairs(base', m, ks[1..]);
      assert forall j :: j in ks <==> j == k || j in ks[1..];
    }
  }

  /** Two total contents that agree on every key are equal. */
  lemma TotalEqual(a: Values, b: Values)
    requires Total(a) && Total(b)
    requires forall k: Key :: a[k] == b[k]
    ensures a == b
  {
    assert a.Keys == b.Keys;
  }

  /**
   * Reading a serialisation back gives the contents again, as long as no value
   * contains the `;` separator: the serialisation drops nothing but the unset keys.
   */
  lemma ParseStyleString(m: Values)
    requires Total(m)
    requires forall k :: m[k].Some? ==> ';' !in m[k].value
    ensures ParseStyle(StyleString(m)) == m
  {
    var ps := Pairs(m, Declared);
    if StyleString(m) == "" {
      assert ParseStyle(StyleString(m)) == Empty();
      TotalEqual(m, Empty());
    } else {
      PairsShape(m, Declared);
      assert ps != [];
      Strings.SplitJoin(ps, ';');
      assert ParseStyle(StyleString(m)) == Load(Empty(), ps);
      DeclaredOnce();
      LoadPairs(Empty(), m, Declared);
      TotalEqual(Load(Empty(), ps), m);
    }
  }

  /** Two contents with equal serialisations are equal, when no value contains `;`. */
  lemma StyleStringInjective(a: Values, b: Values)
    requires Total(a) && Total(b)
    requires forall k :: a[k].Some? ==> ';' !in a[k].value
    requires forall k :: b[k].Some? ==> ';' !in b[k].value
    requires StyleString(a) == StyleString(b)
    ensures a == b
  {
    ParseStyleString(a);
    ParseStyleString(b);
  }

  // ---- The bulk `style` setter ----

  /** One entry of the mapping given to the bulk setter. */
  type Entry = (Key, Option<string>)

  /** The entries stored one after the other without any check. */
  function Overlay(m: Values, es: seq<Entry>): (r: Values)
    requires Total(m)
    ensures Total(r)
    decreases |es|
  {
    if es == [] then m
    else Overlay(m, es[..|es| - 1])[es[|es| - 1].0 := es[|es| - 1].1]
  }

  /** A key that no entry names keeps its value. */
  lemma {:induction false} OverlayUntouched(m: Values, es: seq<Entry>, k: Key)
    requires Total(m)
    requires forall i :: 0 <= i < |es| ==> es[i].0 != k
    ensures Overlay(m, es)[k] == m[k]
    decreases |es|
  {
    if es != [] {
      OverlayUntouched(m, es[..|es| - 1], k);
    }
  }

  /** A key ends up with the value of the last entry that names it. */
  lemma {:induction false} OverlayLast(m: Values, es: seq<Entry>, i: nat)
    requires Total(m)
    requires i < |es|
    requires forall j :: i < j < |es| ==> es[j].0 != es[i].0
    ensures Overlay(m, es)[es[i].0] == es[i].1
    decreases |es|
  {
    if i < |es| - 1 {
      var init := es[..|es| - 1];
      assert init[i] == es[i];
      OverlayLast(m, init, i);
    }
  }

  /** What the bulk setter leaves behind: the contents, and the error that stopped it if any. */
  datatype Applied = Applied(values: Values, error: Option<StyleError>)

  /**
   * The bulk setter on `es`: start from `_empty`, pass the entries in order
   * through the setters, and stop at the first one a setter rejects.
   */
  function ApplyAll(es: seq<Entry>): (r: Applied)
    ensures Total(r.values)
    ensures r.error.None? <==> forall i :: 0 <= i < |es| ==> Accepts(es[i].0, es[i].1)
    decreases |es|
  {
    if es == [] then Applied(Empty(), None)
    else
      assert forall i :: 0 <= i < |es| - 1 ==> es[..|es| - 1][i] == es[i];
      var prev := ApplyAll(es[..|es| - 1]);
      var e := es[|es| - 1];
      if prev.error.Some? then prev
      else
        match Assign(prev.values, e.0, e.1)
        case Success(m) => Applied(m, None)
        case Failure(e) => Applied(prev.values, Some(e))
  }

  /** Once an entry is rejected, later entries change nothing. */
  lemma {:induction false} ApplyAllStops(es: seq<Entry>, i: nat)
    requires i <= |es|
    requires ApplyAll(es[..i]).error.Some?
    ensures ApplyAll(es) == ApplyAll(es[..i])
    decreases |es| - i
  {
    if i == |es| {
      assert es[..i] == es;
    } else {
      var init := es[..|es| - 1];
      assert init[..i] == es[..i];
      ApplyAllStops(init, i);
    }
  }

  /** When every entry is accepted, the result is the entries stored over `_empty`, with no error. */
  lemma {:induction false} ApplyAllAccepted(es: seq<Entry>)
    requires forall i :: 0 <= i < |es| ==> Accepts(es[i].0, es[i].1)
    ensures ApplyAll(es) == Applied(Overlay(Empty(), es), None)
    decreases |es|
  {
    if es != [] {
      var init := es[..|es| - 1];
      assert forall i :: 0 <= i < |init| ==> init[i] == es[i];
      ApplyAllAccepted(init);
    }
  }

  /**
   * When entry `j` is the first rejected one, the entries before it stay
   * applied over `_empty`, every later entry is ignored, and the error is that
   * of entry `j`.
   */
  lemma ApplyAllRejected(es: seq<Entry>, j: nat)
    requires j < |es|
    requires !Accepts(es[j].0, es[j].1)
    requires forall i :: 0 <= i < j ==> Accepts(es[i].0, es[i].1)
    ensures ApplyAll(es) == Applied(Overlay(Empty(), es[..j]), Some(Rejection(es[j].0, es[j].1)))
  {
    ApplyAllRejectedAt(es, j);
    ApplyAllStops(es, j + 1);
  }

  /** The same up to and including the rejected entry. */
  lemma ApplyAllRejectedAt(es: seq<Entry>, j: nat)
    requires j < |es|
    requires !Accepts(es[j].0, es[j].1)
    requires forall i :: 0 <= i < j ==> Accepts(es[i].0, es[i].1)
    ensures ApplyAll(es[..j + 1]) == Applied(Overlay(Empty(), es[..j]), Some(Rejection(es[j].0, es[j].1)))
  {
    var upto := es[..j + 1];
    var pre := es[..j];
    ApplyAllPrefix(es, j);
    assert upto[..|upto| - 1] == pre;
    assert upto[|upto| - 1] == es[j];
    ApplyAllFailsAt(upto, Overlay(Empty(), pre));
  }

  /** The accepted entries before `j` are stored over `_empty`, with no error. */
  lemma ApplyAllPrefix(es: seq<Entry>, j: nat)
    requires j <= |es|
    requires forall i :: 0 <= i < j ==> Accepts(es[i].0, es[i].1)
    ensures ApplyAll(es[..j]) == Applied(Overlay(Empty(), es[..j]), None)
  {
    var pre := es[..j];
    assert forall i :: 0 <= i < |pre| ==> pre[i] == es[i];
    ApplyAllAccepted(pre);
  }

  /** A rejected last entry leaves the earlier values and records its error. */
  lemma ApplyAllFailsAt(es: seq<Entry>, m: Values)
    requires es != []
    requires ApplyAll(es[..|es| - 1]) == Applied(m, None)
    requires !Accepts(es[|es| - 1].0, es[|es| - 1].1)
    ensures ApplyAll(es) == Applied(m, Some(Rejection(es[|es| - 1].0, es[|es| - 1].1)))
  {
  }

  /** After a rejection, the keys that no earlier entry named are unset. */
  lemma ApplyAllRestUnset(es: seq<Entry>, j: nat, k: Key)
    requires j < |es|
    requires !Accepts(es[j].0, es[j].1)
    requires forall i :: 0 <= i < j ==> Accepts(es[i].0, es[i].1)
    requires forall i :: 0 <= i < j ==> es[i].0 != k
    ensures ApplyAll(es).values[k] == None
    ensures ApplyAll(es).error.Some?
  {
    ApplyAllRejected(es, j);
    var pre := es[..j];
    assert forall i :: 0 <= i < |pre| ==> pre[i] == es[i];
    OverlayUntouched(Empty(), pre, k);
  }

  /** A Style object: its `_style` dict, written in place by the setters. */
  class Style {
    var values: Values

    /** The key set never grows or shrinks. */
    ghost predicate Valid()
      reads this
    {
      Total(values)
    }

    /** `Style(**kwargs)`: a private copy of `_empty`, then the arguments merged in unchecked. */
    constructor (init: map<Key, Option<string>>)
      ensures Valid()
      ensures values == Empty() + init
    {
      values := Empty() + init;
    }

    /** `str(style)`. */
    function ToString(): (r: string)
      reads this
      requires Valid()
      ensures (r == "") <==> forall k: Key :: values[k] == None
      ensures (forall k: Key :: values[k].Some? ==> ';' !in values[k].value) ==> ParseStyle(r) == values
    {
      if forall k: Key :: values[k].Some? ==> ';' !in values[k].value then
        ParseStyleString(values);
        StyleString(values)
      else
        StyleString(values)
    }

    /** The per-key property getter: the value stored under the key, None while it is unset. */
    function Get(k: Key): (v: Option<string>)
      reads this
      requires Valid()
      ensures v == values[k]
    {
      values[k]
    }

    /** The per-key property setter: checked for linecap and miterlimit, unchecked otherwise. */
    method Set(k: Key, v: Option<string>) returns (err: Option<StyleError>)
      requires Valid()
      modifies this
      ensures Valid()
      ensures err.None? <==> Accepts(k, v)
      ensures err.None? ==> values == old(values)[k := v] && Get(k) == v
      ensures err.Some? ==> values == old(values) && Allowed(k).Some? && err.value == Rejection(k, v)
    {
      if !Accepts(k, v) {
        return Some(Rejection(k, v));
      }
      values := values[k := v];
      err := None;
    }

    /** The `style` property setter: reset to `_empty`, then every entry through its setter. */
    method SetStyle(entries: seq<Entry>) returns (err: Option<StyleError>)
      modifies this
      ensures Valid()
      ensures values == ApplyAll(entries).values
      ensures err == ApplyAll(entries).error
    {
      values := Empty();
      err := None;
      var i := 0;
      while i < |entries|
        invariant 0 <= i <= |entries|
        invariant Valid()
        invariant ApplyAll(entries[..i]) == Applied(values, None)
        invariant err == None
      {
        var (k, v) := entries[i];
        assert entries[..i + 1][..i] == entries[..i];
        err := Set(k, v);
        if err.Some? {
          ApplyAllStops(entries, i + 1);
          return;
        }
        i := i + 1;
      }
      assert entries[..i] == entries;
    }
  }

  /**
   * Each Style owns its contents: setting a property on one instance leaves a
   * second, fresh instance empty.
   */
  method SeparateInstances() returns (first: string, second: string)
    ensures first != "" && second == ""
  {
    var a := new Style(map[]);
    var b := new Style(map[]);
    assert b.values == Empty() by {
      assert Empty() + map[] == Empty();
    }
    var err := a.Set(Fill, Some("red"));
    assert a.values[Fill] == Some("red");
    first := a.ToString();
    second := b.ToString();
  }
}
