# Standalone-page builder: inline-script collector and favicon filter

`create_standalone.py` builds one self-contained `standalone.html` out of the
dashboard's `index.html`. This project models the two pieces of that script
that hold logic of their own, and proves what they do.

- **The inline-script collector** (`_ScriptExtractor`). Python's
  `HTMLParser` tokenizes the page and calls one handler per token. The
  collector keeps two flags (`_collect`, `_has_src`), a buffer of text
  fragments and the list `scripts` of finished inline scripts. It collects
  the bodies of `<script>` elements that have no `src` attribute.
  - The tokenizer is outside the model. Its output is a sequence of `Event`s:
    `StartTag(tag, attrs)`, `EndTag(tag)`, `Data`, `Comment`, `EntityRef`
    and `CharRef`.
  - In `script_extractor.dfy` the collector is the class
    `ScriptExtraction.ScriptExtractor`. It has the four fields (`collect`,
    `hasSrc`, `buffer`, `scripts`) and one method per handler. Each method
    states its complete new state.
  - `Step` and `Run` give the same behaviour as a pure transition function
    and its fold over an event stream. `Dispatch` and `Feed` are proved
    against them.
  - The reference for the output is stateless. `OpenScript` gives the inline
    start tag that is open at a point in the stream, `BodyText` gives the
    text a body contributes, and `Expected` gives the scripts a page yields.
    `RunMatchesExpected` proves that the handlers collect exactly
    `Expected`.
- **The favicon filter** (`remove_other_favicons`), in `favicons.dfy`. It cuts
  the page into lines at `'\n'`, drops every line the favicon pattern finds a
  match in, and joins the rest with `'\n'`.
  - The filter, `KeptLines`, takes the dropping test as a parameter, and its
    lemmas hold for any test.
  - The pattern `\s*<link\s+rel="(?:icon"\s+type="image/png|apple-touch-icon)`
    is written out by hand as `IsOtherFavicon`. It follows Python's `re`
    semantics for a `str` pattern with `re.IGNORECASE`. `\s` is the set of
    characters for which `str.isspace()` holds. A pattern letter matches itself
    and its ASCII capital. Pattern `i` also matches `İ` and `ı`, `s` matches
    `ſ`, and `k` matches the Kelvin sign.
- `text.dfy` (module `Text`) holds the string helpers: ASCII lower-casing,
  `"".join`, `str.split(sep)` and `sep.join`, with their round-trip lemmas.

## Model

| member | source | states |
|---|---|---|
| `ScriptExtraction.IsScriptNameLower` | create_standalone.py:24 | the letter-by-letter tag test holds exactly when the lower-cased tag equals `script` |
| `ScriptExtraction.HasSrcSpec` | create_standalone.py:25-26 | scanning the attributes finds `src` exactly when some attribute name lower-cases to `src`, which is when the lower-cased dictionary has the key |
| `ScriptExtraction.ScriptExtractor.constructor` | create_standalone.py:16-21 | a new collector is not collecting, has no `src` flag, and has an empty buffer and no scripts |
| `ScriptExtraction.ScriptExtractor.HandleStartTag` | create_standalone.py:23-32 | a `script` start tag (name compared case-insensitively) with a `src` attribute (attribute names lower-cased) sets `hasSrc` and clears `collect`, keeping buffer and scripts; one without `src` sets `collect`, clears `hasSrc` and empties the buffer; any other tag changes nothing |
| `ScriptExtraction.ScriptExtractor.HandleEndTag` | create_standalone.py:34-41 | a `script` end tag appends exactly one entry, the concatenated buffer, when `collect && !hasSrc`, and none otherwise; it then resets both flags and empties the buffer; any other end tag changes nothing |
| `ScriptExtraction.ScriptExtractor.HandleData` | create_standalone.py:43-45 | data is appended to the buffer only while `collect && !hasSrc`; flags and scripts are unchanged |
| `ScriptExtraction.ScriptExtractor.HandleComment` | create_standalone.py:47-50 | a comment is appended as `<!--d-->` only while `collect && !hasSrc`; flags and scripts are unchanged |
| `ScriptExtraction.ScriptExtractor.HandleEntityRef` | create_standalone.py:52-54 | an entity reference is appended as `&n;` only while `collect && !hasSrc`; flags and scripts are unchanged |
| `ScriptExtraction.ScriptExtractor.HandleCharRef` | create_standalone.py:56-58 | a character reference is appended as `&#n;` only while `collect && !hasSrc`; flags and scripts are unchanged |
| `ScriptExtraction.ScriptExtractor.Append` | create_standalone.py:44-45 | the common guard of the four content handlers: the fragment is appended exactly when `collect && !hasSrc` |
| `ScriptExtraction.ScriptExtractor.Dispatch` | create_standalone.py:23-58 | handling one event moves the collector's fields exactly as `Step` does, and keeps the invariant that it never collects while `hasSrc` is set |
| `ScriptExtraction.ScriptExtractor.Feed` | create_standalone.py:241 | feeding a stream of events leaves the fields equal to `Run` of the old fields over the stream |
| `ScriptExtraction.ExtractScripts` | create_standalone.py:240-242 | a fresh collector fed a page yields exactly `Expected`: one entry per script end tag that closes an open inline script, holding its body text, in page order |
| `ScriptExtraction.RunMatchesExpected` | create_standalone.py:15-58 | from the initial state, the collected scripts equal the stateless `Expected`; the collector is collecting exactly when an inline script is open, and its buffer then spells that script's body since its start tag |
| `ScriptExtraction.OpenScriptSpec` | create_standalone.py:26-41 | an inline script is open exactly when some `script` start tag without `src` has no `script` tag after it; `OpenScript` names that start tag |
| `ScriptExtraction.ScriptsOnlyGrow` | create_standalone.py:21-41 | `scripts` only grows: the old list is a prefix of the new one, and at most one entry is added per `script` end tag |
| `ScriptExtraction.IdleUntilNextStart` | create_standalone.py:23-58 | once not collecting, the collector adds no script and buffers no text until the next `script` start tag; its buffer stays as it was or is emptied |
| `ScriptExtraction.SrcScriptContributesNothing` | create_standalone.py:26-28 | a `script` element with a `src` attribute never adds an entry to `scripts`, whatever follows up to the next `script` start tag |
| `ScriptExtraction.InlineScriptEmitsBody` | create_standalone.py:29-41 | from any state, an inline script element appends exactly its body text and leaves the collector idle with an empty buffer; so a second start tag before an end tag discards the text buffered before it |
| `ScriptExtraction.CollectBody` | create_standalone.py:43-58 | inside an open inline script, non-script-tag events keep the flags and `scripts` and add their pieces, in order, to the buffer |
| `ScriptExtraction.StepOutsideScriptTags` | create_standalone.py:24-58 | an event that is not a `script` tag keeps both flags and `scripts`, and adds its piece to the buffer exactly when `collect && !hasSrc` |
| `ScriptExtraction.RunAppend` | create_standalone.py:241 | handling two event streams one after the other equals handling their concatenation |
| `Text.Split` | create_standalone.py:97 | `split('\n')` gives at least one piece, no piece holds a newline, and the empty page gives one empty line |
| `Text.SplitCount` | create_standalone.py:97 | `split('\n')` gives exactly one piece more than there are newlines |
| `Text.JoinSplit` | create_standalone.py:97-100 | joining the lines of a split with the separator gives back the original text |
| `Text.SplitJoin` | create_standalone.py:97-100 | splitting a join of newline-free lines gives back the lines |
| `Favicons.LeadingSpaces` | create_standalone.py:98 | the whitespace run a greedy `\s+` consumes: every character in it is whitespace, and the next one is not |
| `Favicons.SearchAt` | create_standalone.py:99 | `pattern.search` succeeds exactly when the anchored pattern matches at some position of the line |
| `Favicons.PngIconLinkIsDropped` | create_standalone.py:98-99 | every line containing `<link`, whitespace, `rel="icon"`, whitespace, `type="image/png`, whatever surrounds it, is dropped |
| `Favicons.AppleTouchIconLinkIsDropped` | create_standalone.py:98-99 | every line containing `<link`, whitespace, `rel="apple-touch-icon` is dropped |
| `Favicons.IcoIconLinkIsKept` | create_standalone.py:90-99 | an icon link with any `<`-free indentation, any whitespace runs, and a next attribute after `rel="icon"` that is not `type="image/png` (the `.ico` link's `href=` or `type="image/x-icon"`, say) is kept, provided the rest of the line holds no `<` |
| `Favicons.NoTagPrefix` | create_standalone.py:98-99 | text without `<` in front of a kept line leaves it kept, because every match of the pattern begins at a `<` |
| `Favicons.LineWithoutTagIsKept` | create_standalone.py:98-99 | a line without `<` is never dropped |
| `Favicons.KeptLines` | create_standalone.py:99 | a line occurs in the result exactly when it occurs in the input and is not dropped; the result is no longer than the input |
| `Favicons.KeptLinesInOrder` | create_standalone.py:99 | the kept lines are a subsequence of the input lines: their original order is preserved |
| `Favicons.KeptLinesAppend` | create_standalone.py:99 | the filter works line by line: filtering a concatenation concatenates the filtered parts |
| `Favicons.KeptLinesOccurrences` | create_standalone.py:99 | each line that is not dropped is kept as often as it occurs; each dropped line is gone |
| `Favicons.KeptLinesNoMatch` | create_standalone.py:99 | when no line matches, every line is kept |
| `Favicons.ResultLines` | create_standalone.py:97-100 | the lines of the result are the kept lines of the input; when every line is dropped the result is the empty string |
| `Favicons.NoOtherFaviconRemains` | create_standalone.py:97-100 | no line of the result matches the favicon pattern |
| `Favicons.RemoveWithoutMatchesIsIdentity` | create_standalone.py:97-100 | a page without such favicon lines passes through unchanged |
| `Favicons.RemoveIsIdempotent` | create_standalone.py:97-100 | applying `remove_other_favicons` twice gives the same page as applying it once |

## Left out

- The tokenizer inside `HTMLParser.feed` belongs to the standard library. The model takes its output as an arbitrary event sequence, which includes every sequence the tokenizer can produce. Several things the tokenizer does are therefore not captured:
  - it passes the contents of a `<script>` element to `handle_data` as raw text;
  - with its default `convert_charrefs=True` it folds entity and character references into data;
  - for a self-closing tag it calls `handle_startendtag`, which by default calls the start handler and then the end handler;
  - it ignores declarations and processing instructions.
- `IsScriptName`, `HasSrc`: Python's Unicode `str.lower()` is modelled as ASCII lower-casing. For comparison with `"script"` and `"src"` the two agree, because no character other than an ASCII capital lower-cases to one of those letters alone.
- Favicons.IsSpace: the set of `str.isspace()` characters is written out from the Unicode character database. It is not derived from that database.
- The rest of `compress_inline_js` (lines 243-249): each collected script is passed to `terser` in a subprocess, and the script text is replaced in the page. This is subprocess plumbing plus global byte counters.
- `embed_favicon`, `embed_fonts_in_css`, `inline_css`: file reads and writes, path resolution, `re.sub` with callbacks, and base64 encoding through library calls.
- `humanize_bytes`, `bytes_string`: floating-point division and `%.1f` formatting.
- `exists`, `check_terser_exists`: probing the file system and `PATH`.
- `compress_file`, `compress_js`, `final_pass_check`: external Node tools run through `os.system` and `Popen`, and the `full_size`/`compressed_size` globals.
- `main`: whole-file I/O, HTTP fetches through `urllib3`, and the per-line rewriting of `<script src>` tags into inline scripts.
- All `print` logging.
