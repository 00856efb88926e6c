# noir-lsp inlay hints, modelled in Dafny

This project models the core of the Noir language server: `src/main.rs`. The server keeps, for every open document, its full text and the module parsed from that text, in two maps keyed by URI. It answers inlay-hint requests by walking the parsed module and projecting what it finds onto line/column positions of the text.

The model has five modules:

- `Wrappers`: Rust's `Option`.
- `Syntax` (syntax.dfy): the part of the parser's `ParsedModule` that the hint handler reads. A module has functions in source order. Each function has a `FunctionKind` and a body of statements. A `Let` statement carries an expression with a kind (one of four literal kinds, or anything else) and a `u32` span.
- `Positions` (positions.dfy): `offset_to_position`. The rope is a plain `seq<char>` and `'\n'` is its only line break. Ropey's `try_char_to_line` counts the breaks before an offset and accepts `offset == len`. `try_line_to_char` gives the start of a line and accepts the index one past the last line. Both are written out as functions. `PositionToOffset` is the inverse mapping, defined for positions that lie on an existing line. For offsets below 2^32, the two directions are proved to be inverses of each other.
- `Hints` (hints.dfy): the body of `inlay_hint`.
  - `ExtractInlays` is the nested walk with loop invariants. It pushes `(start, end, label)` for every `let` of every `Normal` function. It is proved to compute `Sites`, a specification by recursion.
  - Lemmas about `Sites` show that it holds exactly one entry per `let`, in source order, and that nothing else contributes.
  - `Project` is the `.map(...).collect()`. It anchors each hint at `start - 2`.
- `Server` (server.dfy): the `Backend` class with its two maps, the `Stores` value of those maps and the transition `Change` that `on_change` performs. It also has the sync handlers and the hint request. Lemmas cover the transition: it keeps the maps in agreement, it is idempotent, a later change overwrites an earlier one, and changes to different documents commute.

## The parser, I/O and panics

- **Parser.** The parser (`noirc_frontend::parse_program`) is a foreign function. `Backend` receives it as a constant `parse: string -> Module` when it is constructed.
- **Left out.** Logging calls, the async runtime and the client connection are left out.
- **Panics.** Panics become preconditions:
  - the `unwrap` of the module lookup (src/main.rs:99-102);
  - the `u32` subtraction `item.0 - 2`, the `unwrap` of `offset_to_position` and the `unwrap` of the label (src/main.rs:155, 165);
  - the index `content_changes[0]` (src/main.rs:69).
- **Thread check.** `try_get_ref().unwrap()` (src/main.rs:104-105) panics when the module is read from a thread other than the one that created it. The model has a single thread, so this panic cannot arise in it; it falls under the concurrency line of "Left out".

## Where the code panics or keeps stale state

- **Non-literal `let` statements.** The code pushes an entry with label `None` for such a statement (src/main.rs:128-134) and later unwraps that label (src/main.rs:165). So a module with `let z = foo();` in a `Normal` function makes the request panic. `Hints.ThreeLetsExample` and `Hints.NonLiteralLetBlocksProjection` state this.
- **Unknown URIs.** The code unwraps the module lookup before it looks at the text (src/main.rs:102), so a request for a document that was never opened panics rather than answering `None`. The `Ok(None)` branch (src/main.rs:146-149) is reachable only when the text map lacks a URI that the module map has. `on_change` never produces that state. `Server.Backend.InlayHint` states both facts.
- **Offsets past the end of the text.** When `start - 2` lies past the end of the stored text, the code unwraps the `None` of `offset_to_position` (src/main.rs:155) and panics. The model makes that a precondition.
- **Closing a document.** `did_close` only logs (src/main.rs:80-84). Both entries of a closed document stay in the maps, and a later request for it still answers from them.

## Model

| member | source | states |
|---|---|---|
| Positions.AsU32 | src/main.rs:267 | the `as u32` cast keeps a value below 2^32 and leaves every value already below 2^32 unchanged |
| Positions.Breaks | src/main.rs:264 | a text holds no more line breaks than chars |
| Positions.LineStart | src/main.rs:265 | the start of line n lies within the text, has exactly n breaks before it, and is 0 or comes right after a break |
| Positions.LineStartUnique | src/main.rs:265 | only one index has those properties, so the start of a line is determined |
| Positions.LineStartAtMost | src/main.rs:264-266 | the line holding an offset starts at or before that offset, so `offset - first_char_of_line` cannot underflow |
| Positions.CharToLine | src/main.rs:264 | `try_char_to_line` succeeds exactly when the offset is at most the text length, and then gives a line that exists |
| Positions.LineToChar | src/main.rs:265 | `try_line_to_char` succeeds exactly for lines up to one past the last line; for an existing line it gives the line's start (exactly that many breaks before it, and 0 or right after a break), and one past the last line gives the text length |
| Positions.OffsetToPosition | src/main.rs:263-268 | `None` exactly when the offset lies past the end of the text; both fields of a result fit in `u32` |
| Positions.OffsetToPositionCorrect | src/main.rs:263-267 | for an offset within the text, the line is the number of breaks before the offset and the column is the number of chars back to the previous break or to the start of the text |
| Positions.PositionRoundTrip | src/main.rs:263-267 | for offsets below 2^32, the line start plus the column gives back the offset: converting an offset to a position and back yields the offset |
| Positions.OffsetRoundTrip | src/main.rs:263-267 | converting a position that lies on an existing line, at an offset below 2^32, to an offset and back yields the same position |
| Positions.SecondLineExample | src/main.rs:263-268 | in the lines "abc" and "defgh", char 5 is at line 1, column 1 |
| Hints.Label | src/main.rs:117-129 | a label is present exactly for literal expressions; it names the literal's kind (": array", ": bool", ": integer", ": string"), so different kinds get different labels |
| Hints.BodySitesAreLets | src/main.rs:111-137 | a body yields exactly one entry per `let` statement, in increasing statement order, and each entry carries that statement's span start, span end and label |
| Hints.ModuleSitesAppend | src/main.rs:107-115 | functions contribute their entries in module order: the entries of a concatenation are the concatenation of the entries |
| Hints.SitesComeFromLets | src/main.rs:107-140 | an entry is collected exactly when a `let` of a `Normal` function yields it; other function kinds and other statements contribute nothing |
| Hints.Sites | src/main.rs:107-140 | the entries collected from a module are exactly those that the `let` statements of its `Normal` functions yield |
| Hints.BodySiteHasLet | src/main.rs:115-137 | every entry of a body comes from one of its `let` statements |
| Hints.SiteHasLet | src/main.rs:107-140 | every collected entry comes from a `let` of a `Normal` function |
| Hints.LetHasSite | src/main.rs:107-140 | every `let` of a `Normal` function has its entry collected |
| Hints.AllSitesComeFromLets | src/main.rs:107-140 | for all entries at once: an entry is collected exactly when a `let` of a `Normal` function yields it |
| Hints.ThreeLetsExample | src/main.rs:109-140 | `let x = 1; let y = true; let z = foo();` yields three entries labelled ": integer", ": bool" and none |
| Hints.ExtractInlays | src/main.rs:99-140 | the nested loops collect exactly the entries the recursive specification `Sites` describes, in the same order |
| Hints.Projectable | src/main.rs:155-165 | an entry can be projected without a panic exactly when its start is at least 2, `offset_to_position` of start minus 2 is `Some`, and its label is present |
| Hints.ProjectSite | src/main.rs:153-177 | a hint carries the entry's label, and its position converts back to the entry's start minus 2 |
| Hints.Project | src/main.rs:151-179 | one hint per entry, in the same order; each carries its entry's label and sits at the position whose offset is the entry's start minus 2 |
| Hints.NonLiteralLetBlocksProjection | src/main.rs:128-134 | a `let` of a non-literal inside a `Normal` function yields an entry that cannot be projected, so the label `unwrap` panics |
| Server.Change | src/main.rs:232-241 | after `on_change`, the document's text is the new text and its tree is the parse of that text; every other URI keeps its presence and its entries |
| Server.ChangeKeepsSynced | src/main.rs:232-241 | if both maps hold the same URIs and every tree is the parse of its text, a change keeps it so |
| Server.ChangeIdempotent | src/main.rs:232-241 | delivering the same full text twice leaves the state that one delivery leaves |
| Server.ChangeOverwrites | src/main.rs:232-241 | of two changes to one document, only the later text matters |
| Server.ChangesCommute | src/main.rs:232-241 | changes to two different documents give the same state in either order |
| Server.Backend.constructor | src/main.rs:251-256 | a new backend starts with both maps empty, which is a synced state |
| Server.Backend.OnChange | src/main.rs:232-241 | text first, then tree: the new state is `Change` of the old one, and agreement of the maps is kept |
| Server.Backend.DidOpen | src/main.rs:54-64 | opening stores the document's text and its parse, as `on_change` does |
| Server.Backend.DidChange | src/main.rs:66-73 | under full sync, the text of the first content change replaces the document's text and tree |
| Server.Backend.DidSave | src/main.rs:75-79 | saving leaves both maps unchanged |
| Server.Backend.DidClose | src/main.rs:80-84 | closing leaves both maps unchanged; the document stays stored |
| Server.Backend.InlayHint | src/main.rs:86-182 | `None` exactly when the document's text is missing, which a synced backend never has; otherwise the projection of the stored module's entries onto the stored text |
| Server.HintsFollowLatestText | src/main.rs:146-179 | after a change, the hints come from the tree of exactly the new text: one per entry, each at the offset of its start minus 2 in that text |

## Left out

- The protocol session: `initialize`, `initialized`, `shutdown`, the configuration, workspace-folder and watched-file handlers, `execute_command` with its `apply_edit`, the custom notification types and `main`. They are transport plumbing and logging; the model has no transport.
- All `log_message` calls: they are output to the client and do not affect state.
- The async runtime, `DashMap` sharding and `ThreadSafe<RefCell<…>>`. The maps are plain sequential state, so the window between storing the text and storing the tree is not modelled. Each handler runs atomically.
- The parser's internals and its diagnostics: `parse_program` is the function `parse` that `Backend` is given, and the code discards the diagnostics it returns.
- Ropey's rope structure and its other line breaks (`\r\n`, `\r`, U+000B, U+000C, U+0085, U+2028, U+2029). The text is a `seq<char>` and only `'\n'` breaks a line.
- The difference between byte and char offsets. Spans are byte offsets and the rope is indexed by chars. The model uses one index for both, which is exact for ASCII text. UTF-8 is not modelled.
- The fixed fields of each hint: kind `TYPE`, no tooltip, padding, text edits or data, and the label part's location (the request URI with the range (0,4)-(0,5)). A hint is modelled as its position and label text. The commented-out start position is not modelled either.
- The `version` field of open and change notifications and the `range` fields of content changes. The code never reads them.
- The requested range of `inlay_hint`. The code ignores it and answers for the whole document.
- Hints.ProjectSite: `item.0 - 2` on a `u32` panics in a debug build and wraps in a release build. The model requires `start >= 2`, the debug behaviour, and does not model the release wrap-around.
- Positions.OffsetToPositionCorrect: states the line and column exactly only for offsets below 2^32. For larger offsets `OffsetToPosition` itself applies the `u32` truncation.
- examples/index.rs is a demo driver that calls a parser and a type inference that are not part of this model.
