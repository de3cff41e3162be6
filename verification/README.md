# mkdocs-drawio-url page rewriter, modelled in Dafny

The MkDocs plugin `DrawioPlugin` post-processes every rendered page. Each `<img>`
whose `src` names a draw.io file becomes a `<div class="mxgraph">`. The div carries the
viewer's options as HTML-escaped JSON in its `data-mxgraph` attribute. The viewer
script is added once to the page's `<body>`. This project models the two methods
that do the work:

- `render_drawio_diagrams` (module `Rewriter`) runs in this order:
  - the fast path on the raw text (`".drawio" in text.lower()`);
  - the image search with the pattern `.*\.drawio$` under `re.IGNORECASE`, applied
    with `search`, so `$` also matches before one final newline;
  - the early return when nothing matches;
  - the append of the `<script>` to the first `body`;
  - the in-place replacement of every matched image.
- `substitute_image` (module `Substitute`) builds the fixed options record, writes it
  with `json.dumps` (module `Json`), escapes it with `html.escape` (module
  `HtmlEscape`) and splices it into the div template.

The HTML library is opaque, so the page is an abstract tree:
`Node = Text | Img(attrs) | Elem(name, attrs, children)`, with attributes as a map.
Module `Events` reads a tree as the stream of events a pre-order walk meets:
text, image, element start and element end. The properties are stated over that
stream (module `RewriterProps`):
- every diagram image is replaced where it stood;
- every other event is kept in order;
- the script's two events go just before the end of the first body;
- the div and script counts grow by the number of diagrams and by one.

The rewrite has two error outcomes, because the plugin raises in both cases:
- `MissingBody`: the page has diagrams but no `body` (`soup.body` is `None`);
- `MissingAlt(src)`: a matched image has no `alt` (`diagram["alt"]`).

The append runs before the loop, so `MissingBody` wins when both apply.

The fast path is not just an optimisation. It can change the result.
- `MatchingProps.GuardIsOptimisation` states when it is safe: every matched
  source is written literally in the page text and contains neither U+0130 nor
  U+0131.
- `MatchingProps.GuardSkipsEncodedSource` gives a page where it is not safe. The
  image source spells its dot as the character reference `&#46;`. The parser
  decodes it and the pattern would match, but the raw text holds no `.drawio`, so
  the page comes back untouched.

## Model

| member | source | states |
|---|---|---|
| Rewriter.Render | mkdocs_drawio_url/plugin.py:38-67 | Text whose lower-cased form lacks `.drawio` comes back unchanged, and so does a page with no matched image. A page is rewritten only if it has a diagram and a body. When the guard passes and a diagram exists, a successful result is always a rewritten page, never the unchanged text. It fails with `MissingBody` exactly when the guard passes, a diagram exists and there is no body. A `MissingAlt` names the source of a matched image without `alt`. With a body, the rewrite succeeds exactly when every matched image has an `alt`. |
| RewriterProps.RenderRewrites | mkdocs_drawio_url/plugin.py:48-67 | After a successful rewrite, no matched image is left. The number of `mxgraph` divs grows by the number of matched images, and the number of viewer scripts grows by exactly one. The first body's children become its replaced children followed by the script. The page's event stream is the input's with every diagram image replaced by its div's events and the script's events inserted just before the end of the first body: after the first body start in the stream and its children's events. |
| RewriterProps.FlattenReplace | mkdocs_drawio_url/plugin.py:59-65 | Replacing in the tree equals substituting in the event stream: each diagram image becomes its div at the same place, and every other text, image, element start and element end is kept in order. |
| RewriterProps.CountSubst | mkdocs_drawio_url/plugin.py:59-65 | Substitution adds one `mxgraph` div per diagram image, leaves no diagram image, and keeps the number of viewer scripts. |
| RewriterProps.DiagramsCount | mkdocs_drawio_url/plugin.py:48 | The images `findAll` returns are as many as the diagram image events in the page. |
| RewriterProps.AppendSplit | mkdocs_drawio_url/plugin.py:53-54 | Appending to the body inserts the script's events at one point of the page's event stream and changes nothing else. The events before that point are the events up to the first body start, which contain no other body start, then that start and the events of the body's children. So the script goes just before the end event of the first body. |
| Rewriter.AppendToBody | mkdocs_drawio_url/plugin.py:54 | The append succeeds exactly when the page has a `body` element. |
| Rewriter.AppendFirstBody | mkdocs_drawio_url/plugin.py:53-54 | After the append, the first body keeps its attributes and children and has the new script as its last child. |
| Rewriter.FirstMissingAlt | mkdocs_drawio_url/plugin.py:59-62 | No source is reported exactly when every matched image has an `alt`. A reported source belongs to a matched image without one. |
| MatchingProps.DrawioSrcAscii | mkdocs_drawio_url/plugin.py:48 | For a source without U+0130 or U+0131, the pattern matches exactly when the lower-cased source ends in `.drawio`, or in `.drawio` and one newline. |
| MatchingProps.ExtensionMatchesAnyCase | mkdocs_drawio_url/plugin.py:48 | Lower-case, upper-case and mixed-case extensions match, and so does one trailing newline. |
| MatchingProps.MatchIsAnchored | mkdocs_drawio_url/plugin.py:48 | `picture.png`, `a.drawio.png`, `a.drawio ` and a source ending in two newlines do not match. |
| MatchingProps.GuardIsOptimisation | mkdocs_drawio_url/plugin.py:39-50 | The fast path returns what the full rewrite returns whenever every matched source appears literally in the text and has neither U+0130 nor U+0131. |
| MatchingProps.GuardSkipsEncodedSource | mkdocs_drawio_url/plugin.py:39-41 | For a page whose only image source spells the dot as `&#46;`, the fast path returns the text unchanged, although the full rewrite would replace the image. |
| MatchingProps.DrawioSrcContainsExtension | mkdocs_drawio_url/plugin.py:39-48 | A matched source without U+0130 or U+0131 contains `.drawio` once lower-cased. |
| Substitute.SubstituteImage | mkdocs_drawio_url/plugin.py:69-82 | The fragment has the template's shape. Its attribute value contains no raw quote or angle bracket, every `&` in it starts an entity, and it is printable ASCII. Unescaping and decoding it gives the options for `src`. |
| Substitute.DecodedConfig | mkdocs_drawio_url/plugin.py:72-81 | The decoded attribute is exactly the object with keys highlight, nav, resize, toolbar, edit and url, in that order. The values are `#0000ff`, true, true, `zoom layers tags lightbox tab` and `_blank`, and `url` is the source verbatim. |
| Substitute.SubstituteIgnoresPathAndAlt | mkdocs_drawio_url/plugin.py:70-81 | The fragment does not depend on the page path or the alt text. |
| Substitute.SubstituteInjective | mkdocs_drawio_url/plugin.py:78-81 | Different image sources give different fragments. |
| Substitute.ParseSubstitute | mkdocs_drawio_url/plugin.py:60-64 | Parsing the fragment gives the div that the rewrite puts in the image's place, with the JSON text itself in `data-mxgraph`. |
| Substitute.MxGraphDivConfig | mkdocs_drawio_url/plugin.py:72-81 | The replacing div's `data-mxgraph` decodes to the six members and then to the options for the image's source. |
| Substitute.EscapeKeepsPrintable | mkdocs_drawio_url/plugin.py:81 | HTML escaping keeps printable ASCII text printable ASCII. |
| HtmlEscape.Escape | mkdocs_drawio_url/plugin.py:81 | The escaped text has no raw `"`, `'`, `<` or `>`, every `&` in it begins one of the five entities, and it is no shorter than the input. |
| HtmlEscape.EscapeAsWrittenIsEscape | mkdocs_drawio_url/plugin.py:5 | The five chained replacements of `html.escape`, ampersand first, equal the per-character escape on every string. |
| HtmlEscape.UnescapeEscape | mkdocs_drawio_url/plugin.py:5 | Unescaping the five entities undoes escaping, for every string. |
| Json.EncodeString | mkdocs_drawio_url/plugin.py:81 | A string is written as printable ASCII between double quotes, as `ensure_ascii` requires. |
| Json.EscapeChar | mkdocs_drawio_url/plugin.py:81 | Each character is written as itself or as a backslash escape, and always as printable ASCII. |
| Json.DumpsPrintable | mkdocs_drawio_url/plugin.py:81 | The whole `json.dumps` output of the options is printable ASCII. |
| JsonRoundTrip.StringRoundTrip | mkdocs_drawio_url/plugin.py:78-81 | Reading back a written string gives the string exactly, whatever follows it. This includes quotes, backslashes, control characters and characters beyond the Basic Multilingual Plane. |
| JsonRoundTrip.EscapeRoundTrip | mkdocs_drawio_url/plugin.py:81 | Every backslash escape, surrogate pairs included, reads back as its character. |
| JsonRoundTrip.LoadsDumps | mkdocs_drawio_url/plugin.py:81 | `json.loads(json.dumps(d)) == d` for every flat object of string and boolean values. |

## Left out

- Parsing the page and serialising it back (`BeautifulSoup(...)`, `str(soup)`): the page is an abstract tree, so text formatting, entity decoding of the page and attribute order are outside the model.
- The MkDocs plugin lifecycle: `config_scheme`, `on_post_page` and `self.config.copy()`. `viewer_js` is a plain parameter, and `Rewriter.DefaultViewerJs` holds its default.
- The logger and the unused `self.pool`: they have no behaviour to verify.
- `Path(page.file.abs_dest_path).parent`: the path is passed on but never used, so it is a plain string parameter.
- The half-replaced page behind a missing `alt`: the plugin raises `KeyError` inside the loop, after the images before the failing one have been replaced. The exception discards that page, so the model returns `MissingAlt` for the first matched image without `alt` and does not build the half-replaced tree. A missing body fails earlier, at the append before the loop.
- The `class` attribute, which the HTML library keeps as a list of classes: it is modelled as the single string `mxgraph`.
- Images are leaves: `Img` has no children, as in HTML.
- `Elem` nodes named `img`: the parser builds every `img` tag as an `Img`, and the model relies on that convention without a well-formedness predicate. `findAll("img")` would return an `Elem("img", …)`, but `Rewriter.DiagramsOf` ignores one.
- Text.Lower: lower-cases ASCII letters only. Python's `lower()` maps other letters as well, but none of them maps to a character of `.drawio`. U+0130 becomes `i` followed by U+0307, which cannot be followed by `o`. So the fast-path test gives the same answer.
- Json.Loads: decodes only flat objects whose values are strings and booleans. That is every object the plugin writes, but not every JSON text.
- HtmlEscape.Unescape: decodes only the five entities `html.escape` writes, not every HTML character reference.
- Json.Dumps: does not model lone surrogate code points. Dafny's `char` cannot hold them, although a Python string can.
