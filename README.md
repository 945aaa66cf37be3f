# tinysvg in Dafny

tinysvg is a small Python library that builds SVG documents as text. An
`SVG` builder holds a width and height, an `inline` flag, a `Style`, and a
`drawing` list of already-rendered element strings. Its element builders
(`rect`, `circle`, `line`, `polyline`, `path`, `image`, `text`, gradients,
groups, ...) format keyword arguments into tags with `create_arg`,
`create_args` and `generic_tag`. The shape builders merge the current style
in as a `style="..."` attribute. Rendering the builder gives the SVG header,
each drawing entry on its own indented line, and `</svg>`. A `Style` has
eleven presentation properties, each unset (`None`) or holding a value. Two
of them check their value against a word list. A style serialises as
`name:value` pairs joined by `;`.

The model is split into five modules:

- `Wrappers` (wrappers.dfy): `Option`, `Result` and `Outcome`.
- `Strings` (strings.dfy): Python's `str.join`, and a splitter that undoes it. The splitter is the reference for showing that joined output loses nothing. The module also has lemmas saying where each joined part lands.
- `Markup` (markup.dfy): `create_arg`, `create_args` and `generic_tag`. Python's keyword-argument dict is an ordered list of `(name, value)` pairs. That list comes with the dict operations the builders use: `d[k] = v`, `pop` and `update`.
- `StyleModel` (style.dfy): the property keys, the `_empty` contents, the checked setters, the serialisation with a parser that inverts it, and the bulk `style` setter. `Style` is a class whose `values` map the setters rewrite in place. That map is the `_style` dict, and also what the `style` getter returns.
- `Svg` (svg.dfy): the header, the rendering of the document, and every element builder. `SVG` is a class whose `add` appends to `drawing`. Builders that read the builder's style are functions of the class. Builders that ignore `self` are functions of the module.

Every value is an already-rendered string, and Python's `None` is `None`.

Some behaviour is kept exactly as the code has it:

- Style serialisation keeps the underscores of the property names (`stroke_width:2`), not the hyphenated CSS names.
- The header always says `viewPort="0 0 1000 1000"`, whatever the `viewport` argument was.
- The `stroke_miterlimit` setter accepts the line-join words miter, round and bevel.
- The error messages say "stoke-linecap" and "stoke-miterlimit".
- `radial_gradient` always produces a container, with an empty line when there are no stops.
- `transform` ignores its keyword arguments.
- `text` on a string puts one character per line.

The rendering of the document template is taken to be the header, then
`"\n    " + entry` for each drawing entry, then `"\n"` and the footer. This
layout comes from the template engine's whitespace rules: the `{%-` markers
strip whitespace, and the engine drops the single trailing newline. It is an
assumption of the model, not something proved.

## Model

| member | source | states |
|---|---|---|
| Markup.Hyphenate | svg/svg.py:18 | every `_` of the name becomes `-`, every other character is kept, and the length is unchanged |
| Markup.HyphenateKeeps | svg/svg.py:18 | a name without underscores (`style`, `xlink:href`) is rendered unchanged |
| Markup.CreateArg | svg/svg.py:17-19 | a None value renders as nothing. Any other value renders as exactly the name with every `_` turned into `-`, followed by `="value"` with the value verbatim |
| Markup.Fragments | svg/svg.py:23 | one fragment per argument, in argument order, each the `create_arg` rendering of its argument (empty for None) |
| Markup.CreateArgs | svg/svg.py:22-24 | the result is empty exactly when there are no arguments or a single None one. Otherwise it is one leading space, then the fragments joined by single spaces in argument order |
| Markup.CreateArgsAppend | svg/svg.py:22-24 | an argument with a value added at the end is rendered last, after one more space |
| Markup.CreateArgsFirst | svg/svg.py:22-24 | an argument with a value at the front is rendered first, right after the leading space |
| Markup.CreateArgsLast | svg/svg.py:22-24 | the rendering of an argument list ends with its last argument's fragment when that argument has a value |
| Markup.NoneKeepsSeparator | svg/svg.py:22-24 | for any two set arguments around a None one, the rendering is a space, the first fragment, two spaces, and the second fragment: the None argument leaves its separator behind |
| Markup.GenericTag | svg/svg.py:26-36 | the tag starts with `<name args`. It is self-closing (`... />`) exactly when there are no children. Otherwise it is `<name args>`, the children joined by newlines, and `</name>` plus a newline |
| Markup.ContainerLines | svg/svg.py:26-36 | a container read line by line is its opening tag, then each child in order, then its closing tag, then nothing |
| Markup.Lookup | svg/svg.py:160 | `d[k]` for a present key: the value returned is one the dict holds under that key |
| Markup.DictSet | svg/svg.py:124 | `d[k] = v`: the dict grows by one entry exactly when the key was absent, and the key then holds `v` |
| Markup.DictPop | svg/svg.py:160 | `d.pop(k)`: the dict shrinks by one entry exactly when the key was present, and is unchanged when it was absent |
| Markup.Update | svg/svg.py:124 | `d.update(extra)`: no entries leave the dict as it was. Otherwise the key of the last entry of `extra` is present afterwards and holds that entry's value |
| Markup.UpdateKeeps | svg/svg.py:124 | a key of the dict that `extra` does not name keeps its value |
| Markup.UpdateLast | svg/svg.py:124 | every key named in `extra` holds the value of the last entry of `extra` that names it |
| Markup.UpdateNames | svg/svg.py:124 | no key appears that was in neither the dict nor `extra` |
| Markup.DictSetOther | svg/svg.py:124 | `d[k] = v` leaves the value of every other key alone |
| Markup.DictSetNames | svg/svg.py:124 | `d[k] = v` adds no key but `k` |
| Markup.Without | svg/svg.py:160 | the reference for removal: it holds exactly the entries not named by the key |
| Markup.DictSetAbsent | svg/svg.py:124 | setting a key the dict lacks appends it at the end |
| Markup.DictSetPresent | svg/svg.py:160 | setting a key the dict has replaces its value where it stands |
| Markup.DictPopWithout | svg/svg.py:160 | popping a key from a dict removes exactly its entry and keeps the order of the rest |
| StyleModel.Name | tinysvg/style.py:6-18 | every property name is non-empty and contains neither `;` nor `:` |
| StyleModel.KeyOfName | tinysvg/style.py:6-18 | each property name denotes its own property, so no two properties share a name |
| StyleModel.DeclaredOnce | tinysvg/style.py:6-18 | the declaration order lists all eleven properties, each exactly once |
| StyleModel.Empty | tinysvg/style.py:6-18 | `_empty` has every property and all of them are unset |
| StyleModel.Assign | tinysvg/style.py:42-133 | a setter succeeds exactly when it accepts the value. It then stores the value under its own key and leaves every other key as it was. Otherwise it fails with tinysvg's message for that property |
| StyleModel.LinecapSetter | tinysvg/style.py:94-99 | the `stroke_linecap` setter accepts exactly butt, round and square |
| StyleModel.MiterlimitSetter | tinysvg/style.py:113-118 | the `stroke_miterlimit` setter accepts exactly miter, round and bevel |
| StyleModel.PairsShape | tinysvg/style.py:25-28 | no serialised pair is empty, and none contains `;` when no value does |
| StyleModel.PairsNone | tinysvg/style.py:25-28 | there are no pairs exactly when every listed property is unset |
| StyleModel.PairsTwo | tinysvg/style.py:25-28 | when exactly two distinct properties are set, the pairs are those two, in declaration order |
| StyleModel.StyleString | tinysvg/style.py:24-28 | a style serialises to the empty string exactly when no property is set |
| StyleModel.EmptyStyleString | tinysvg/style.py:20-28 | a fresh style serialises to the empty string |
| StyleModel.FillAndStrokeWidth | tinysvg/style.py:24-28 | contents with only fill and stroke_width set serialise as `fill:<fill>;stroke_width:<width>`: declaration order, keys with their underscores, one separator, none trailing |
| StyleModel.StrokeWidthThenFill | tinysvg/style.py:24-28 | setting stroke_width before fill still serialises as `fill:red;stroke_width:2` |
| StyleModel.LoadPairs | tinysvg/style.py:24-28 | reading the pairs of distinct keys back gives every set value of those keys and leaves the rest alone |
| StyleModel.ParseStyleString | tinysvg/style.py:24-28 | when no value contains `;`, parsing the serialisation gives back exactly the style contents |
| StyleModel.StyleStringInjective | tinysvg/style.py:24-28 | under the same condition, two styles with the same serialisation have the same contents |
| StyleModel.ApplyAll | tinysvg/style.py:34-40 | the bulk setter ends without an error exactly when every entry is accepted by its setter |
| StyleModel.OverlayUntouched | tinysvg/style.py:39-40 | a key that no entry names keeps its value |
| StyleModel.OverlayLast | tinysvg/style.py:39-40 | a key takes the value of the last entry that names it |
| StyleModel.ApplyAllStops | tinysvg/style.py:39-40 | once an entry is rejected, later entries change nothing |
| StyleModel.ApplyAllAccepted | tinysvg/style.py:34-40 | when every entry is accepted, the result is the entries stored over `_empty` in order, with no error |
| StyleModel.ApplyAllRejected | tinysvg/style.py:34-40 | when entry `j` is the first rejected one, the entries before it stay applied over `_empty`, later ones are ignored, and the error is entry `j`'s |
| StyleModel.ApplyAllRestUnset | tinysvg/style.py:34-40 | after a rejection, every key that no earlier entry named is unset |
| StyleModel.Style.constructor | tinysvg/style.py:20-22 | a new style holds a copy of `_empty` with its arguments merged in, unchecked |
| StyleModel.Style.ToString | tinysvg/style.py:24-28 | the serialisation is empty exactly when no property is set. When no value contains `;`, it parses back to the contents |
| StyleModel.Style.Get | tinysvg/style.py:42-44 | a property getter returns the value stored under its key, None while the property is unset (the same for all eleven properties) |
| StyleModel.Style.Set | tinysvg/style.py:42-133 | a per-key setter succeeds exactly when the value is accepted. It then stores the value, which the getter returns, and changes nothing else. On rejection the contents are unchanged and the error is tinysvg's message |
| StyleModel.Style.SetStyle | tinysvg/style.py:34-40 | the bulk setter's new contents and error are those of `ApplyAll` on its entries |
| StyleModel.SeparateInstances | tinysvg/style.py:20-22 | setting a property on one style leaves a second style empty |
| Svg.Header | svg/svg.py:60-67 | the header starts with the DOCTYPE exactly when the builder is not inline. It is the DOCTYPE (or nothing) followed by the opening `<svg>` tag, so the builder's size line sits at a fixed offset, and it always ends with the fixed `viewPort="0 0 1000 1000"` line |
| Svg.HeaderSize | svg/svg.py:60-67 | width and height can be read back from the header: two headers of the same kind are equal only for the same size, when the widths hold no `"` |
| Svg.SizeLineRead | svg/svg.py:65 | the size line determines the width and height it quotes, when the widths hold no `"` |
| Svg.SvgOpen | svg/svg.py:63-67 | the opening tag starts with the `<svg` line with the SVG namespace and the XLink namespace line. Then comes the line `width="<width>" height="<height>"` with both values verbatim, and it ends with the fixed view-port line. Its length leaves room for nothing else |
| Svg.Document | svg/svg.py:53-58 | the rendering starts with the header and ends with a newline and `</svg>` |
| Svg.Body | svg/svg.py:4-9 | the drawing part of the rendering is empty exactly when there are no drawing entries |
| Svg.BodyAppend | svg/svg.py:4-9 | the rendering of a concatenated drawing list is the two renderings one after the other |
| Svg.BodyLines | svg/svg.py:4-9 | the drawing part is a newline followed by the entries, each indented by four spaces, joined by newlines in insertion order |
| Svg.DrawingRecoverable | svg/svg.py:4-9 | when no entry spans several lines, the lines of the drawing part are exactly the indented entries, each once, in order |
| Svg.RenderAfterAdd | svg/svg.py:76-77 | after one more entry, the new entry is the last line before the footer and nothing else moves |
| Svg.SVG.constructor | svg/svg.py:45-51 | a new builder keeps its size, viewport and inline flag, and has a fresh empty style and an empty drawing list |
| Svg.SVG.Add | svg/svg.py:76-77 | the item is appended at the end of `drawing`, and every other field is unchanged |
| Svg.SVG.HeaderText | svg/svg.py:60-67 | the builder's header has the DOCTYPE exactly when it is not inline, carries the builder's own width and height on its size line, and ends with the view-port line |
| Svg.SVG.ToString | svg/svg.py:53-58 | the rendering starts with the builder's header and is that header, the rendered drawing entries, a newline and the builder's footer |
| Svg.SVG.FooterText | svg/svg.py:69-70 | the footer is the closing tag of the `svg` element the header opens |
| Svg.SVG.StyleText | svg/svg.py:80 | the style string is empty exactly when no property is set |
| Svg.SVG.StyleOrNot | svg/svg.py:79-81 | a style entry is produced exactly when the flag is set and the style string is non-empty, and it holds that string |
| Svg.ShapeTag | svg/svg.py:124-126 | with nothing merged, the tag has the given arguments. With a style merged into arguments that lack it, `style="..."` is the last attribute |
| Svg.StyleLast | svg/svg.py:124-126 | updating arguments that lack `style` appends it, and it is rendered last |
| Svg.AttrLast | svg/svg.py:124-126 | an attribute appended with a value is the last one in a self-closing tag |
| Svg.SVG.Rect | svg/svg.py:123-126 | without style, or with an empty style, the tag has exactly the caller's attributes. Otherwise `style="<style string>"` follows them as the last attribute |
| Svg.SVG.Circle | svg/svg.py:128-131 | as for `rect`, with a `circle` tag |
| Svg.SVG.Ellipse | svg/svg.py:133-136 | as for `rect`, with an `ellipse` tag |
| Svg.SVG.Line | svg/svg.py:138-141 | as for `rect`, with `x1`, `y1`, `x2`, `y2` as the first attributes |
| Svg.SVG.Polyline | svg/svg.py:143-149 | as for `rect`, with `points` as the first attribute |
| Svg.SVG.Path | svg/svg.py:151-156 | as for `rect`, with `d` as the first attribute |
| Svg.PointsValue | svg/svg.py:146-147 | each point appears as `x,y` in input order, consecutive points are separated by exactly one space, and nothing comes before the first point or after the last |
| Svg.ParsePointsValue | svg/svg.py:146-147 | when coordinates contain no space and x contains no comma, reading the `points` value back gives exactly the input points |
| Svg.PathData | svg/svg.py:154 | the steps appear in input order, separated by exactly one space, with nothing before the first or after the last. Steps without spaces split back into exactly the input steps |
| Svg.Transform | svg/svg.py:120-121 | the transformations appear in input order, separated by exactly one space, with nothing before the first or after the last. No transformations give the empty string |
| Svg.Translate | svg/svg.py:105-106 | the text is the SVG call `translate(x, y)` with its arguments comma-separated in order |
| Svg.Scale | svg/svg.py:108-109 | the text is the SVG call `scale(s)` |
| Svg.Rotate | svg/svg.py:111-112 | the text is the SVG call `rotate(degrees, x, y)` with its arguments in order |
| Svg.SkewX | svg/svg.py:114-115 | the text is the SVG call `skewX(degrees)` |
| Svg.SkewY | svg/svg.py:117-118 | the text is the SVG call `skewY(degrees)` |
| Svg.Stop | svg/svg.py:83-84 | a self-closing `stop` tag with the caller's attributes and no style |
| Svg.LinearGradient | svg/svg.py:86-87 | the stops in a `linearGradient` container, with `id` as the first attribute |
| Svg.IdFirst | svg/svg.py:86-87 | with a value, `id` is the first attribute of the tag |
| Svg.RadialGradient | svg/svg.py:89-94 | the text starts with the fixed `<radialGradient ...>` attribute line and ends with a newline, `</radialGradient>` and a newline |
| Svg.RadialGradientLines | svg/svg.py:89-94 | read line by line: the attribute line, the stops in order (one empty line when there are none), and the closing tag |
| Svg.Pattern | svg/svg.py:96-97 | the patterns in a `pattern` container, with `id` first |
| Svg.Symbol | svg/svg.py:99-100 | the drawing in a `symbol` container, with `id` first |
| Svg.Defs | svg/svg.py:102-103 | the entries in a `defs` container |
| Svg.G | svg/svg.py:179-180 | the entries in a `g` container |
| Svg.MoveHref | svg/svg.py:159-160 | without `xlink_href` the arguments are unchanged. With it, `xlink:href` is present and holds the value popped from `xlink_href` |
| Svg.MoveHrefLast | svg/svg.py:159-160 | in a dict without `xlink:href`, the href entry moves to the end under the new name, and every other entry keeps its order |
| Svg.Image | svg/svg.py:158-162 | without `xlink_href` the tag has the caller's attributes. With it, the tag has the renamed ones |
| Svg.ImageHref | svg/svg.py:158-162 | the tag has the other attributes in order, then `xlink:href="..."` last |
| Svg.TextAnchor | svg/svg.py:164-167 | succeeds, returning the anchor, exactly when it is start, middle or end. Otherwise fails with tinysvg's message |
| Svg.BaselineShift | svg/svg.py:169-171 | passes exactly for super, sub and baseline. Otherwise fails with tinysvg's message |
| Svg.Chars | svg/svg.py:174 | a string given as children is one child per character, in order |
| Svg.OneCharPerLine | svg/svg.py:173-174 | the joined content of `text` holds character `i` at position `2i`, with a newline between neighbours |
| Svg.Text | svg/svg.py:173-174 | a `text` container over the characters of the content, self-closing for empty content |
| Svg.Tspan | svg/svg.py:176-177 | renders exactly what `text` renders |
| Svg.TspanIsText | svg/svg.py:176-177 | as written, `tspan` never produces a `<tspan` tag |
| Svg.TspanElement | svg/svg.py:176-177 | the intended `tspan`: a `tspan` container over the content, starting with `<tspan` |

## Left out

- The template engine: the whitespace layout of the rendered document is assumed as described above, not derived from the engine.
- `save`: writing the rendering to a file is I/O and is not part of this model.
- Exceptions: `SVGError` and `StyleError` are `BaseException` subclasses. The model returns `Result`/`Outcome` values that carry the message instead of raising.
- Formatting of non-string values: numbers such as the viewport tuple or the `radial_gradient` defaults are given as already-rendered strings. Python's `str` of floats is not modelled.
- Dynamic attribute access in the bulk setter: `setattr` with an unknown name, or with the name `style` (which would recurse), is not modelled. Entries name one of the eleven properties.
- The `style` getter returns the internal dict by alias. The model has no aliasing: callers read `values`.
- StyleModel.Style.constructor: keyword arguments are limited to the eleven properties. Python would also accept new, unknown keys.
- StyleModel.Style.Set: the eleven per-property getters and setters are modelled as one `Get`/`Set` keyed by property. `Allowed` describes each property's check.
- The `unit` parameter of `create_arg` is never passed by any caller and is left out.
- The import of `.style` from svg/svg.py:2 refers to a module beside svg.py. The `Style` class modelled here is the one in tinysvg/style.py.
- Svg.ParsePointsValue and Svg.PathData state the split-back property only for coordinates and steps without spaces (and x without commas). Values that contain separators cannot be read back.
- Keyword-argument clashes: a caller keyword that names one of the builder's own parameters binds to that parameter and never reaches `**kwargs`. This holds for `id` in `linear_gradient`, `pattern` and `symbol`, for `x1`, `y1`, `x2` and `y2` in `line`, for `points` in `polyline`, for `steps` in `path`, and for `embed` in `defs` and `g`. So in Python the keyword arguments of those builders never hold these names, while the model accepts any argument list. Python raises `TypeError` when a keyword reaches `**kwargs` and the builder passes the same name to `generic_tag` itself. That happens for `d=` to `path`, for `embed=` to `linear_gradient`, `pattern`, `symbol`, `text` and `tspan`, and for `name=` to every builder that calls `generic_tag`, which passes the tag name positionally. `transform` never calls `generic_tag` and ignores all its keywords, `name=` included. An `embed=` keyword binds to `generic_tag`'s children in `rect`, `circle`, `ellipse`, `line`, `polyline`, `path`, `stop` and `image`. The model renders all such arguments as ordinary attributes.
- Svg.ShapeTag: the `style` contract assumes the caller's arguments have no `style` key. In Python this always holds, because a `style=` keyword binds to the shape builder's own flag.
- Passing a list as the content of `text` or `tspan` is not modelled. The content is a string, one character per child.

## Findings

| source | as written | input that shows it | evidently intended | confidence | as-written member | corrected member |
|---|---|---|---|---|---|---|
| svg/svg.py:176-177 | `tspan` calls `generic_tag('text', ...)` | any call, e.g. content `a` with no arguments, gives `<text>`, a newline, `a`, a newline, `</text>` | a `<tspan>` element with the same content and attributes | high; not executed | Svg.TspanIsText | Svg.TspanElement |
