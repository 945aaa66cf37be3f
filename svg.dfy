/**
 * The SVG builder of svg/svg.py: element builders that format keyword
 * arguments into tags, an owned Style merged into shape tags, and a drawing
 * list rendered as header, entries and footer.
 */
module Svg {
  import opened Wrappers
  import Strings
  import opened Markup
  import StyleModel

  /** The payload of `SVGError`: its message. */
  datatype SvgError = SvgError(message: string)

  // ---- Document rendering ----

  /** The XML prolog and SVG 1.1 DOCTYPE written before a standalone document. */
  const Doctype: string := XmlDecl + DoctypeDecl

  const XmlDecl: string := "<?xml version=\"1.0\"?>\n"

  const DoctypeDecl: string :=
    "<!DOCTYPE svg PUBLIC \"-//W3C//DTD SVG 1.1//EN\" \"http://www.w3.org/Graphics/SVG/1.1/DTD/svg11.dtd\">\n\n"

  /** The first line of the opening `<svg>` tag: the element name and the SVG namespace. */
  const SvgFirst: string := "<svg xmlns=\"http://www.w3.org/2000/svg\"\n"

  /** The second line: the XLink namespace. */
  const XlinkLine: string := "     xmlns:xlink=\"http://www.w3.org/1999/xlink\"\n"

  /** The text of the size line up to the width. */
  const WidthLead: string := "     width=\""

  /** The third line: the builder's width and height, each quoted verbatim. */
  function SizeLine(width: string, height: string): string
  {
    WidthLead + width + ("\" height=\"" + height + "\"\n")
  }

  /** The last line of the header: the view port is this literal, whatever the builder's viewport. */
  const ViewPortLine: string := "     viewPort=\"0 0 1000 1000\">\n"

  /** Where the size line starts in a header with or without the DOCTYPE. */
  function SizeOffset(inline: bool): nat
  {
    (if inline then 0 else |Doctype|) + |SvgFirst| + |XlinkLine|
  }

  /**
   * `SVG._header`: the DOCTYPE unless inline, then the opening `<svg>` tag
   * over four lines, with the builder's size on the third.
   */
  function Header(inline: bool, width: string, height: string): (r: string)
    ensures !inline <==> Strings.StartsWith(r, Doctype)
    ensures Strings.EndsWith(r, SvgOpen(width, height))
    ensures |r| == (if inline then 0 else |Doctype|) + |SvgOpen(width, height)|
    ensures Strings.Placed(r, SizeLine(width, height), SizeOffset(inline))
    ensures Strings.EndsWith(r, ViewPortLine)
  {
    var open := SvgOpen(width, height);
    var pre := if inline then "" else Doctype;
    assert SizeOffset(inline) == |pre| + (|SvgFirst| + |XlinkLine|);
    Strings.PrefixedLayout(pre, open, SizeLine(width, height), |SvgFirst| + |XlinkLine|, ViewPortLine);
    if inline then
      assert XmlDecl[1] == '?';
      assert Doctype[1] == XmlDecl[1];
      Strings.StartsDiffer(open, Doctype, 1);
      assert pre + open == open;
      pre + open
    else
      Strings.Affixes(Doctype, open);
      pre + open
  }

  /**
   * The opening `<svg>` tag: the namespace lines, the size line and the view
   * port line, in that order. Its second character, `s`, is what keeps an
   * inline header from starting with the DOCTYPE.
   */
  function SvgOpen(width: string, height: string): (r: string)
    ensures |r| > 1 && r[1] == 's'
    ensures Strings.StartsWith(r, SvgFirst + XlinkLine)
    ensures Strings.Placed(r, SizeLine(width, height), |SvgFirst| + |XlinkLine|)
    ensures Strings.EndsWith(r, ViewPortLine)
    ensures |r| == |SvgFirst| + |XlinkLine| + |SizeLine(width, height)| + |ViewPortLine|
  {
    var lead := SvgFirst + XlinkLine;
    Strings.ThreeParts(lead, SizeLine(width, height), ViewPortLine);
    assert SvgFirst[1] == 's';
    assert lead[1] == SvgFirst[1];
    lead + SizeLine(width, height) + ViewPortLine
  }

  /**
   * The size can be read back from a header: two headers of the same kind
   * are equal only for the same width and height, when the widths hold no
   * quote (a quote in the width could pass for the end of the attribute).
   */
  lemma HeaderSize(inline: bool, w: string, h: string, w2: string, h2: string)
    requires '"' !in w && '"' !in w2
    requires Header(inline, w, h) == Header(inline, w2, h2)
    ensures w == w2 && h == h2
  {
    var r := Header(inline, w, h);
    var a, b := SizeLine(w, h), SizeLine(w2, h2);
    assert |a| == |b| by {
      assert |SvgOpen(w, h)| == |SvgOpen(w2, h2)|;
    }
    Strings.PlacedSame(r, a, b, SizeOffset(inline));
    SizeLineRead(w, h, w2, h2);
  }

  /** Width and height are the quoted fields of the size line. */
  lemma SizeLineRead(w: string, h: string, w2: string, h2: string)
    requires '"' !in w && '"' !in w2
    requires SizeLine(w, h) == SizeLine(w2, h2)
    ensures w == w2 && h == h2
  {
    var q := "\" height=\"";
    Strings.QuotedField(WidthLead, w, q + h + "\"\n", w2, q + h2 + "\"\n");
    Strings.Infix(q, h, h2, "\"\n");
  }

  /** `SVG._footer`. */
  const Footer: string := "</svg>"

  /** The rendered loop over the drawing list: each entry on a new line, indented by four spaces. */
  function Body(drawing: seq<string>): (r: string)
    ensures drawing == [] <==> r == ""
  {
    if drawing == [] then "" else "\n    " + drawing[0] + Body(drawing[1..])
  }

  /**
   * `SVG.__str__`: the template filled with the header, the drawing list and
   * the footer, as the template engine lays it out (header, body, newline, footer).
   */
  function Document(header: string, drawing: seq<string>): (r: string)
    ensures Strings.StartsWith(r, header)
    ensures Strings.EndsWith(r, "\n" + Footer)
  {
    Strings.Affixes(header, Body(drawing) + ("\n" + Footer));
    Strings.Affixes(header + Body(drawing), "\n" + Footer);
    header + Body(drawing) + "\n" + Footer
  }

  /** Rendering a concatenated drawing list renders the parts one after the other. */
  lemma {:induction false} BodyAppend(a: seq<string>, b: seq<string>)
    ensures Body(a + b) == Body(a) + Body(b)
  {
    if a == [] {
      assert a + b == b;
    } else {
      assert (a + b)[0] == a[0];
      assert (a + b)[1..] == a[1..] + b;
      BodyAppend(a[1..], b);
    }
  }

  /** Each entry as it appears on its line. */
  function Indented(drawing: seq<string>): (r: seq<string>)
    ensures |r| == |drawing|
    ensures forall i :: 0 <= i < |drawing| ==> r[i] == "    " + drawing[i]
  {
    if drawing == [] then [] else ["    " + drawing[0]] + Indented(drawing[1..])
  }

  /** The body is a newline followed by the indented entries, each once, in insertion order. */
  lemma {:induction false} BodyLines(drawing: seq<string>)
    requires drawing != []
    ensures Body(drawing) == "\n" + Strings.Join("\n", Indented(drawing))
  {
    if |drawing| > 1 {
      BodyLines(drawing[1..]);
      assert Indented(drawing)[1..] == Indented(drawing[1..]);
    }
  }

  /** When no entry spans several lines, the body's lines are exactly the indented entries. */
  lemma DrawingRecoverable(drawing: seq<string>)
    requires drawing != []
    requires forall e :: e in drawing ==> '\n' !in e
    ensures Strings.Split(Body(drawing), '\n') == [""] + Indented(drawing)
  {
    BodyLines(drawing);
    forall p | p in Indented(drawing) ensures '\n' !in p {
      var i :| 0 <= i < |Indented(drawing)| && Indented(drawing)[i] == p;
      assert drawing[i] in drawing;
    }
    Strings.SplitJoin(Indented(drawing), '\n');
    Strings.SplitConcat("", Strings.Join("\n", Indented(drawing)), '\n');
    assert "" + ['\n'] + Strings.Join("\n", Indented(drawing)) == Body(drawing);
  }

  /** Rendering after one more `add` shows the new entry last, just before the footer. */
  lemma RenderAfterAdd(header: string, drawing: seq<string>, item: string)
    ensures Document(header, drawing + [item]) == header + Body(drawing) + "\n    " + item + "\n" + Footer
  {
    var x := "\n    " + item;
    var b, b2 := Body(drawing), Body(drawing + [item]);
    assert b2 == b + x by {
      BodyAppend(drawing, [item]);
      assert [item][1..] == [];
    }
    assert Document(header, drawing + [item]) == header + (b + x) + "\n" + Footer;
    Strings.RegroupFive(header, b, x, "\n", Footer);
  }


  /** One attribute as it appears in a tag: a space, then `name="value"`. */
  function Attr(name: string, value: string): string
  {
    " " + name + "=\"" + value + "\""
  }

  // ---- Element builders that do not use the builder's state ----

  /** `stop`: a self-closing `<stop .../>`, no style merged in. */
  function Stop(kwargs: seq<Arg>): (r: string)
    ensures Container(r, "stop", [], kwargs)
  {
    GenericTag("stop", [], kwargs)
  }

  /** `linear_gradient`: the stops in a `linearGradient` container, `id` before the other attributes. */
  function LinearGradient(id: Option<string>, stops: seq<string>, kwargs: seq<Arg>): (r: string)
    ensures Container(r, "linearGradient", stops, [("id", id)] + kwargs)
    ensures id.Some? ==> IdLeads(r, "linearGradient", id.value)
  {
    IdFirst("linearGradient", id, stops, kwargs);
    GenericTag("linearGradient", stops, [("id", id)] + kwargs)
  }

  /** The tag `r` opens element `name` with `id` as its first attribute. */
  predicate IdLeads(r: string, name: string, id: string)
  {
    Strings.StartsWith(r, "<" + name + Attr("id", id))
  }

  /** With a value, `id` is the first attribute of a tag built from `[id] + kwargs`. */
  lemma IdFirst(name: string, id: Option<string>, embed: seq<string>, kwargs: seq<Arg>)
    ensures id.Some? ==> IdLeads(GenericTag(name, embed, [("id", id)] + kwargs), name, id.value)
  {
    if id.Some? {
      var args := [("id", id)] + kwargs;
      CreateArgsFirst(("id", id), kwargs);
      HyphenateKeeps("id");
      assert CreateArg(("id", id)) == "id" + "=\"" + id.value + "\"";
      assert " " + CreateArg(("id", id)) == Attr("id", id.value);
      Strings.StartsWithPrefixed("<" + name, CreateArgs(args), Attr("id", id.value));
      Strings.StartsWithTrans(GenericTag(name, embed, args), "<" + name + CreateArgs(args), "<" + name + Attr("id", id.value));
    }
  }

  /**
   * `radial_gradient`: a fixed attribute line with `%` after the six
   * percentages, then the stops, one per line, then the closing tag; a
   * container even without stops.
   */
  function RadialGradient(id: string, stops: seq<string>, cx: string := "50", cy: string := "50",
                          fx: string := "50", fy: string := "50", fr: string := "0", r: string := "50",
                          spreadMethod: string := "pad"): (res: string)
    ensures Strings.StartsWith(res, RadialOpen(id, cx, cy, fx, fy, fr, r, spreadMethod))
    ensures Strings.EndsWith(res, "\n" + Closing("radialGradient") + "\n")
  {
    var open := RadialOpen(id, cx, cy, fx, fy, fr, r, spreadMethod);
    Strings.FramedEnds(open, stops, Closing("radialGradient"));
    Strings.Framed(open, stops, Closing("radialGradient"))
  }

  /** The attribute line of `radial_gradient`. */
  function RadialOpen(id: string, cx: string, cy: string, fx: string, fy: string, fr: string,
                      r: string, spreadMethod: string): string
  {
    "<radialGradient id=\"" + id + "\" cx=\"" + cx + "%\" cy=\"" + cy + "%\" fx=\"" + fx +
    "%\" fy=\"" + fy + "%\" fr=\"" + fr + "%\" r=\"" + r + "%\" spreadMethod=\"" + spreadMethod + "\">"
  }

  /**
   * `radial_gradient` read line by line: the attribute line, the stops one per
   * line (one empty line when there are none, unlike `generic_tag`), the
   * closing tag, then nothing.
   */
  lemma RadialGradientLines(id: string, stops: seq<string>, cx: string, cy: string, fx: string, fy: string,
                            fr: string, r: string, spreadMethod: string)
    requires '\n' !in RadialOpen(id, cx, cy, fx, fy, fr, r, spreadMethod)
    requires forall e :: e in stops ==> '\n' !in e
    ensures Strings.Split(RadialGradient(id, stops, cx, cy, fx, fy, fr, r, spreadMethod), '\n') ==
            [RadialOpen(id, cx, cy, fx, fy, fr, r, spreadMethod)] + (if stops == [] then [""] else stops) +
            [Closing("radialGradient"), ""]
  {
    Strings.FramedLines(RadialOpen(id, cx, cy, fx, fy, fr, r, spreadMethod), stops, Closing("radialGradient"));
  }

  /** `pattern`: the patterns in a `pattern` container, `id` first. */
  function Pattern(id: Option<string>, patterns: seq<string>, kwargs: seq<Arg>): (r: string)
    ensures Container(r, "pattern", patterns, [("id", id)] + kwargs)
    ensures id.Some? ==> IdLeads(r, "pattern", id.value)
  {
    IdFirst("pattern", id, patterns, kwargs);
    GenericTag("pattern", patterns, [("id", id)] + kwargs)
  }

  /** `symbol`: the drawing in a `symbol` container, `id` first. */
  function Symbol(id: Option<string>, drawing: seq<string>, kwargs: seq<Arg>): (r: string)
    ensures Container(r, "symbol", drawing, [("id", id)] + kwargs)
    ensures id.Some? ==> IdLeads(r, "symbol", id.value)
  {
    IdFirst("symbol", id, drawing, kwargs);
    GenericTag("symbol", drawing, [("id", id)] + kwargs)
  }

  /** `defs`: the entries in a `defs` container. */
  function Defs(embed: seq<string>, kwargs: seq<Arg>): (r: string)
    ensures Container(r, "defs", embed, kwargs)
  {
    GenericTag("defs", embed, kwargs)
  }

  /** `g`: the entries in a `g` group. */
  function G(embed: seq<string>, kwargs: seq<Arg>): (r: string)
    ensures Container(r, "g", embed, kwargs)
  {
    GenericTag("g", embed, kwargs)
  }

  // ---- Transform text ----

  /** The text of an SVG transform function: `name(a, b, ...)`. */
  function Call(name: string, args: seq<string>): string
  {
    name + "(" + Strings.Join(", ", args) + ")"
  }

  function Translate(x: string, y: string): (r: string)
    ensures r == Call("translate", [x, y])
  {
    Strings.JoinTwo(", ", x, y);
    "translate(" + x + ", " + y + ")"
  }

  function Scale(s: string): (r: string)
    ensures r == Call("scale", [s])
  {
    "scale(" + s + ")"
  }

  function Rotate(degrees: string, x: string, y: string): (r: string)
    ensures r == Call("rotate", [degrees, x, y])
  {
    assert [degrees, x, y][1..] == [x, y];
    Strings.JoinTwo(", ", x, y);
    "rotate(" + degrees + ", " + x + ", " + y + ")"
  }

  function SkewX(degrees: string): (r: string)
    ensures r == Call("skewX", [degrees])
  {
    "skewX(" + degrees + ")"
  }

  function SkewY(degrees: string): (r: string)
    ensures r == Call("skewY", [degrees])
  {
    "skewY(" + degrees + ")"
  }

  /** `transform`: the transform texts separated by single spaces in input order; extra arguments are ignored. */
  function Transform(transformations: seq<string>, kwargs: seq<Arg>): (r: string)
    ensures Strings.Joined(r, " ", transformations)
  {
    Strings.JoinLayout(" ", transformations);
    Strings.Join(" ", transformations)
  }

  // ---- Point lists and path data ----

  /** One polyline point as `x,y`. */
  function PointText(p: (string, string)): string
  {
    p.0 + "," + p.1
  }

  function PointTexts(points: seq<(string, string)>): (r: seq<string>)
    ensures |r| == |points|
    ensures forall i :: 0 <= i < |points| ==> r[i] == PointText(points[i])
  {
    if points == [] then [] else [PointText(points[0])] + PointTexts(points[1..])
  }

  /** The `points` value of `polyline`: the `x,y` pairs separated by single spaces in input order. */
  function PointsValue(points: seq<(string, string)>): (r: string)
    ensures Strings.Joined(r, " ", PointTexts(points))
  {
    Strings.JoinLayout(" ", PointTexts(points));
    Strings.Join(" ", PointTexts(points))
  }

  /** Reference reader for a `points` value: space-separated `x,y` pairs. */
  function ParsePoints(s: string): seq<(string, string)>
  {
    if s == "" then [] else ParsePointTexts(Strings.Split(s, ' '))
  }

  function ParsePointTexts(ps: seq<string>): (r: seq<(string, string)>)
    ensures |r| == |ps|
  {
    if ps == [] then [] else [Strings.SplitFirst(ps[0], ',')] + ParsePointTexts(ps[1..])
  }

  /** Coordinates without spaces (and x without commas) are read back from `points` unchanged. */
  lemma ParsePointsValue(points: seq<(string, string)>)
    requires forall p :: p in points ==> ' ' !in p.0 && ' ' !in p.1 && ',' !in p.0
    ensures ParsePoints(PointsValue(points)) == points
  {
    var ts := PointTexts(points);
    if points != [] {
      forall t | t in ts ensures ' ' !in t {
        var i :| 0 <= i < |ts| && ts[i] == t;
        assert points[i] in points;
      }
      assert ts[0] == points[0].0 + "," + points[0].1;
      Strings.JoinAt(" ", ts, 0);
      Strings.SplitJoin(ts, ' ');
      ParseEachPoint(points);
    }
  }

  lemma {:induction false} ParseEachPoint(points: seq<(string, string)>)
    requires forall p :: p in points ==> ',' !in p.0
    ensures ParsePointTexts(PointTexts(points)) == points
  {
    if points != [] {
      Strings.SplitFirstAt(points[0].0, points[0].1, ',');
      assert PointText(points[0]) == points[0].0 + [','] + points[0].1;
      assert PointTexts(points)[1..] == PointTexts(points[1..]);
      ParseEachPoint(points[1..]);
      assert points == [points[0]] + points[1..];
    }
  }

  /** The `d` value of `path`: the steps separated by single spaces in input order. */
  function PathData(steps: seq<string>): (r: string)
    ensures Strings.Joined(r, " ", steps)
    ensures steps != [] && (forall s :: s in steps ==> ' ' !in s) ==> Strings.Split(r, ' ') == steps
  {
    Strings.JoinLayout(" ", steps);
    if steps != [] && (forall s :: s in steps ==> ' ' !in s) then
      Strings.SplitJoin(steps, ' ');
      Strings.Join(" ", steps)
    else
      Strings.Join(" ", steps)
  }

  // ---- Shapes and the style merge ----

  /** Whether `_style_or_not` contributes a style attribute. */
  predicate Styled(useStyle: bool, s: string)
  {
    useStyle && s != ""
  }

  /**
   * The promise of every shape builder: a self-closing tag whose attributes are
   * `lead`, then the caller's, then `style="s"` last exactly when the flag is
   * set and the style string `s` is non-empty; with the flag off, or an empty
   * style, the style plays no part.
   */
  predicate ShapeContract(r: string, name: string, lead: seq<Arg>, kwargs: seq<Arg>, useStyle: bool, s: string)
  {
    && (!Styled(useStyle, s) ==> r == "<" + name + CreateArgs(lead + kwargs) + " />")
    && (Styled(useStyle, s) && "style" !in Names(kwargs) ==>
          r == "<" + name + CreateArgs(lead + kwargs + [("style", Some(s))]) + " />" &&
          Strings.EndsWith(r, Attr("style", s) + " />"))
  }

  /** An attribute with a value, appended to the arguments, closes the self-closing tag. */
  lemma AttrLast(tag: string, args: seq<Arg>, k: string, v: string)
    requires '_' !in k
    ensures Strings.EndsWith("<" + tag + CreateArgs(args + [(k, Some(v))]) + " />", Attr(k, v) + " />")
  {
    var a := (k, Some(v));
    HyphenateKeeps(k);
    assert CreateArg(a) == k + "=\"" + v + "\"";
    assert " " + CreateArg(a) == Attr(k, v);
    CreateArgsLast(args, a);
    Strings.EndsWithWrapped("<" + tag, CreateArgs(args + [a]), Attr(k, v), " />");
  }

  /** A shape tag: `kwargs.update(extra)`, then `generic_tag(name, **lead, **kwargs)`. */
  function ShapeTag(name: string, lead: seq<Arg>, kwargs: seq<Arg>, extra: seq<Arg>): (r: string)
    ensures extra == [] ==> r == "<" + name + CreateArgs(lead + kwargs) + " />"
    ensures |extra| == 1 && extra[0].0 == "style" && extra[0].1.Some? && "style" !in Names(kwargs) ==>
              r == "<" + name + CreateArgs(lead + kwargs + extra) + " />" &&
              Strings.EndsWith(r, Attr("style", extra[0].1.value) + " />")
  {
    if |extra| == 1 && extra[0].0 == "style" && extra[0].1.Some? && "style" !in Names(kwargs) then
      StyleLast(name, lead, kwargs, extra[0].1.value);
      assert extra == [("style", Some(extra[0].1.value))];
      GenericTag(name, [], lead + Update(kwargs, extra))
    else
      GenericTag(name, [], lead + Update(kwargs, extra))
  }

  /** The style attribute, merged into arguments that lack it, is rendered last. */
  lemma StyleLast(name: string, lead: seq<Arg>, kwargs: seq<Arg>, s: string)
    requires "style" !in Names(kwargs)
    ensures lead + Update(kwargs, [("style", Some(s))]) == lead + kwargs + [("style", Some(s))]
    ensures Strings.EndsWith("<" + name + CreateArgs(lead + kwargs + [("style", Some(s))]) + " />", Attr("style", s) + " />")
  {
    var st := ("style", Some(s));
    assert Update(kwargs, [st]) == kwargs + [st] by {
      DictSetAbsent(kwargs, "style", Some(s));
      assert [st][1..] == [];
      assert Update(kwargs, [st]) == Update(kwargs + [st], []);
    }
    AttrLast(name, lead + kwargs, "style", s);
  }

  // ---- Images ----

  /**
   * `kwargs['xlink:href'] = kwargs.pop('xlink_href')` when the key is present:
   * the dict is unchanged without it, and otherwise `xlink:href` holds the
   * popped value.
   */
  function MoveHref(kwargs: seq<Arg>): (r: seq<Arg>)
    ensures "xlink_href" !in Names(kwargs) ==> r == kwargs
    ensures "xlink_href" in Names(kwargs) ==>
              "xlink:href" in Names(r) && Lookup(r, "xlink:href") == Lookup(kwargs, "xlink_href")
  {
    if "xlink_href" in Names(kwargs)
    then DictSet(DictPop(kwargs, "xlink_href"), "xlink:href", Lookup(kwargs, "xlink_href"))
    else kwargs
  }

  /** In a dict without `xlink:href`, the href moves to the end and everything else keeps its order. */
  lemma MoveHrefLast(kwargs: seq<Arg>)
    requires Distinct(kwargs)
    requires "xlink_href" in Names(kwargs) && "xlink:href" !in Names(kwargs)
    ensures MoveHref(kwargs) == Without(kwargs, "xlink_href") + [("xlink:href", Lookup(kwargs, "xlink_href"))]
  {
    DictPopWithout(kwargs, "xlink_href");
    var rest := Without(kwargs, "xlink_href");
    assert "xlink:href" !in Names(rest);
    DictSetAbsent(rest, "xlink:href", Lookup(kwargs, "xlink_href"));
  }

  /** `image`: a self-closing `<image .../>` after the href key is renamed; no style merged in. */
  function Image(kwargs: seq<Arg>): (r: string)
    ensures "xlink_href" !in Names(kwargs) ==> Container(r, "image", [], kwargs)
    ensures "xlink_href" in Names(kwargs) ==> Container(r, "image", [], MoveHref(kwargs))
  {
    GenericTag("image", [], MoveHref(kwargs))
  }

  /** An `xlink_href` argument is rendered last as `xlink:href="..."`, the other attributes before it in order. */
  lemma ImageHref(kwargs: seq<Arg>, href: string)
    requires Distinct(kwargs)
    requires "xlink_href" in Names(kwargs) && "xlink:href" !in Names(kwargs)
    requires Lookup(kwargs, "xlink_href") == Some(href)
    ensures Container(Image(kwargs), "image", [], Without(kwargs, "xlink_href") + [("xlink:href", Some(href))])
    ensures Strings.EndsWith(Image(kwargs), Attr("xlink:href", href) + " />")
  {
    var rest := Without(kwargs, "xlink_href");
    var args := rest + [("xlink:href", Some(href))];
    var moved := ("xlink:href", Lookup(kwargs, "xlink_href"));
    assert MoveHref(kwargs) == rest + [moved] by {
      MoveHrefLast(kwargs);
    }
    assert moved == ("xlink:href", Some(href));
    assert MoveHref(kwargs) == args;
    ImageTag(kwargs, args);
    HrefName();
    AttrLast("image", rest, "xlink:href", href);
  }

  /** Proof aid for `ImageHref`: the renamed key has no underscore, so it is rendered as it is. */
  lemma HrefName()
    ensures '_' !in "xlink:href"
  {
  }

  /** Proof aid for `ImageHref`: the image tag is the container shape over the renamed arguments. */
  lemma ImageTag(kwargs: seq<Arg>, args: seq<Arg>)
    requires MoveHref(kwargs) == args
    ensures Container(Image(kwargs), "image", [], args)
  {
  }

  // ---- Enumerated values ----

  /** `text_anchor`: the argument when it is start, middle or end; `SVGError` otherwise. */
  function TextAnchor(anchor: string): (r: Result<string, SvgError>)
    ensures r.Success? <==> anchor in {"start", "middle", "end"}
    ensures r.Success? ==> r.value == anchor
    ensures r.Failure? ==> r.error == SvgError("\"" + anchor + "\" is not a legal text-anchor")
  {
    if anchor !in ["start", "middle", "end"] then Failure(SvgError("\"" + anchor + "\" is not a legal text-anchor"))
    else Success(anchor)
  }

  /** `baseline_shift`: passes for super, sub or baseline and returns nothing; `SVGError` otherwise. */
  function BaselineShift(baseline: string): (r: Outcome<SvgError>)
    ensures r.Pass? <==> baseline in {"super", "sub", "baseline"}
    ensures r.Fail? ==> r.error == SvgError("\"" + baseline + "\" is not a legal baseline-shift")
  {
    if baseline !in ["super", "sub", "baseline"] then Fail(SvgError("\"" + baseline + "\" is not a legal baseline-shift"))
    else Pass
  }

  // ---- Text ----

  /** What `'\n'.join` makes of a plain string: each character one element. */
  function Chars(s: string): (r: seq<string>)
    ensures |r| == |s|
    ensures forall i :: 0 <= i < |s| ==> r[i] == [s[i]]
  {
    if s == [] then [] else [[s[0]]] + Chars(s[1..])
  }

  /** The joined content of a text element holds one character per line. */
  lemma {:induction false} OneCharPerLine(s: string)
    requires s != ""
    ensures |Strings.Join("\n", Chars(s))| == 2 * |s| - 1
    ensures forall i :: 0 <= i < |s| ==>
              Strings.Join("\n", Chars(s))[2 * i] == s[i] && (i > 0 ==> Strings.Join("\n", Chars(s))[2 * i - 1] == '\n')
  {
    if |s| > 1 {
      OneCharPerLine(s[1..]);
      assert Chars(s)[1..] == Chars(s[1..]);
      var tail := Strings.Join("\n", Chars(s[1..]));
      assert Strings.Join("\n", Chars(s)) == [s[0]] + "\n" + tail;
      forall i | 1 <= i < |s|
        ensures Strings.Join("\n", Chars(s))[2 * i] == s[i]
        ensures Strings.Join("\n", Chars(s))[2 * i - 1] == '\n'
      {
        assert s[1..][i - 1] == s[i];
        if i > 1 {
          assert Strings.Join("\n", Chars(s))[2 * i - 1] == tail[2 * (i - 1) - 1];
        }
      }
    }
  }

  /** `text`: the content as children, so a plain string stands one character per line. */
  function Text(content: string, kwargs: seq<Arg>): (r: string)
    ensures Container(r, "text", Chars(content), kwargs)
  {
    GenericTag("text", Chars(content), kwargs)
  }

  /** `tspan`: exactly what `text` renders, a `<text>` tag, not a `<tspan>` one. */
  function Tspan(content: string, kwargs: seq<Arg>): (r: string)
    ensures r == Text(content, kwargs)
    ensures Container(r, "text", Chars(content), kwargs)
  {
    GenericTag("text", Chars(content), kwargs)
  }

  /** Whatever the content and the arguments, `tspan` never produces a `<tspan>` element. */
  lemma TspanIsText(content: string, kwargs: seq<Arg>)
    ensures !Strings.StartsWith(Tspan(content, kwargs), "<tspan")
  {
    var r := Tspan(content, kwargs);
    Strings.StartsWithShorter(r, "<" + "text", CreateArgs(kwargs));
    assert "<" + "text" == "<text";
    assert r[2] == 'e';
    Strings.StartsDiffer(r, "<tspan", 2);
  }

  /** `tspan` as evidently intended: the content in a `<tspan>` element. */
  function TspanElement(content: string, kwargs: seq<Arg>): (r: string)
    ensures Container(r, "tspan", Chars(content), kwargs)
    ensures Strings.StartsWith(r, "<tspan")
  {
    var r := GenericTag("tspan", Chars(content), kwargs);
    Strings.StartsWithShorter(r, "<" + "tspan", CreateArgs(kwargs));
    assert "<" + "tspan" == "<tspan";
    r
  }

  // ---- The builder object ----

  /** The `viewport` tuple, kept but never rendered. */
  type Viewport = (string, string, string, string)

  class SVG {
    var width: string
    var height: string
    var viewport: Viewport
    var inline: bool
    var style: StyleModel.Style
    var drawing: seq<string>

    ghost predicate Valid()
      reads this, style
    {
      style.Valid()
    }

    /** `SVG(width, height, viewport, inline)`: a fresh empty Style and an empty drawing list. */
    constructor (width: string, height: string, viewport: Viewport := ("0", "0", "1000", "1000"), inline: bool := true)
      ensures Valid() && fresh(style)
      ensures this.width == width && this.height == height
      ensures this.viewport == viewport && this.inline == inline
      ensures drawing == [] && style.values == StyleModel.Empty()
    {
      this.width := width;
      this.height := height;
      this.viewport := viewport;
      this.inline := inline;
      style := new StyleModel.Style(map[]);
      drawing := [];
    }

    /** `add`: append one entry at the end of the drawing list; nothing else changes. */
    method Add(item: string)
      requires Valid()
      modifies this
      ensures Valid()
      ensures drawing == old(drawing) + [item]
      ensures width == old(width) && height == old(height) && viewport == old(viewport)
      ensures inline == old(inline) && style == old(style)
    {
      drawing := drawing + [item];
    }

    /** `_header` of this builder (the viewport field plays no part). */
    function HeaderText(): (r: string)
      reads this
      ensures !inline <==> Strings.StartsWith(r, Doctype)
      ensures Strings.Placed(r, SizeLine(width, height), SizeOffset(inline))
      ensures Strings.EndsWith(r, ViewPortLine)
    {
      Header(inline, width, height)
    }

    /** `_footer`: the closing tag of the `<svg>` element the header opens. */
    function FooterText(): (r: string)
      ensures r == Closing("svg")
    {
      Footer
    }

    /** `str(svg)`: the header, every drawing entry once in insertion order, the footer. */
    function ToString(): (r: string)
      reads this
      ensures Strings.StartsWith(r, HeaderText())
      ensures r == HeaderText() + Body(drawing) + "\n" + FooterText()
    {
      Document(HeaderText(), drawing)
    }

    /** `str(self.style)`. */
    function StyleText(): (r: string)
      reads this, style
      requires Valid()
      ensures r == "" <==> forall k: StyleModel.Key :: style.values[k] == None
    {
      style.ToString()
    }

    /** `_style_or_not`: a one-entry `style` dict exactly when the flag is set and the style string is non-empty. */
    function StyleOrNot(useStyle: bool): (r: seq<Arg>)
      reads this, style
      requires Valid()
      ensures r != [] <==> Styled(useStyle, StyleText())
      ensures r != [] ==> r == [("style", Some(StyleText()))]
    {
      var s := StyleText();
      if useStyle && s != "" then [("style", Some(s))] else []
    }

    function Rect(kwargs: seq<Arg>, useStyle: bool := true): (r: string)
      reads this, style
      requires Valid()
      ensures ShapeContract(r, "rect", [], kwargs, useStyle, StyleText())
    {
      ShapeTag("rect", [], kwargs, StyleOrNot(useStyle))
    }

    function Circle(kwargs: seq<Arg>, useStyle: bool := true): (r: string)
      reads this, style
      requires Valid()
      ensures ShapeContract(r, "circle", [], kwargs, useStyle, StyleText())
    {
      ShapeTag("circle", [], kwargs, StyleOrNot(useStyle))
    }

    function Ellipse(kwargs: seq<Arg>, useStyle: bool := true): (r: string)
      reads this, style
      requires Valid()
      ensures ShapeContract(r, "ellipse", [], kwargs, useStyle, StyleText())
    {
      ShapeTag("ellipse", [], kwargs, StyleOrNot(useStyle))
    }

    /** `line`: the end points come first, as `x1`, `y1`, `x2`, `y2`. */
    function Line(x1: Option<string>, y1: Option<string>, x2: Option<string>, y2: Option<string>,
                  kwargs: seq<Arg>, useStyle: bool := true): (r: string)
      reads this, style
      requires Valid()
      ensures ShapeContract(r, "line", [("x1", x1), ("y1", y1), ("x2", x2), ("y2", y2)], kwargs, useStyle, StyleText())
    {
      ShapeTag("line", [("x1", x1), ("y1", y1), ("x2", x2), ("y2", y2)], kwargs, StyleOrNot(useStyle))
    }

    /** `polyline`: the points as the first attribute. */
    function Polyline(points: seq<(string, string)>, kwargs: seq<Arg>, useStyle: bool := true): (r: string)
      reads this, style
      requires Valid()
      ensures ShapeContract(r, "polyline", [("points", Some(PointsValue(points)))], kwargs, useStyle, StyleText())
    {
      ShapeTag("polyline", [("points", Some(PointsValue(points)))], kwargs, StyleOrNot(useStyle))
    }

    /** `path`: the steps as the first attribute, `d`. */
    function Path(steps: seq<string>, kwargs: seq<Arg>, useStyle: bool := true): (r: string)
      reads this, style
      requires Valid()
      ensures ShapeContract(r, "path", [("d", Some(PathData(steps)))], kwargs, useStyle, StyleText())
    {
      ShapeTag("path", [("d", Some(PathData(steps)))], kwargs, StyleOrNot(useStyle))
    }
  }
}
