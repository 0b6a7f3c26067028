# bmake-to-Zig renderer, modelled in Dafny

This project models `zigify`, the renderer of bmake-transform that walks a
tree-sitter syntax tree of a bmake build description and emits Zig
build-script text. `zigify` looks the node's type up in a dispatch table of
eleven rules and applies the rule; rules recurse into children:

- `body` / `source_file`: the `const std = @import("std");` header, then every
  child rendered and joined with newlines;
- `if`: `if (<cond>) {\n<second named child>\n}`;
- `diagnostic`: the `%error` marker becomes a `std.debug.print` call carrying
  the message child's text;
- `comment`: `#...` becomes `//...` plus a newline;
- `identifier`, `is_defined`: the node's text verbatim;
- `defined`, `!`, `(`, `)`: fixed strings.

Any other node type fails, and so does any diagnostic marker other than
`%error`. Failures are values of `Result<string, Error>`; `Error` has one case
per exception the rules themselves raise (`KeyError` for an unknown node
type or marker, `AttributeError` for a missing `cond` field, `IndexError` for a
missing child). Where the code reads several things, errors follow Python's
left-to-right evaluation: an `if` renders its condition before it looks for its
second named child; a diagnostic reads `children[0]`, then the marker table,
then `children[1]`; a body renders its children in order and stops at the
first failure.

Files:

- `wrappers.dfy` — `Option` and `Result`.
- `syntax.dfy` — `Syntax.Node`, the read-only tree. The tree-sitter field
  `type` is a Dafny keyword, so it is called `kind`.
- `lines.dfy` — `Join` (`"\n".join`) and its inverse `Split` (`str.split("\n")`).
- `to_zig.dfy` — the renderer: `Zigify`, the dispatch table's rules, the
  `Header` constant and the `DiagnosticHeaders` table.
- `to_zig_properties.dfy` — what the rules promise over whole trees, including
  `Renderable`, an independent description of exactly the trees that render.

The renderer has no variable environment, no assignment, rule or include
handling, no `else` output and no fallback for unknown anonymous nodes. Every
node type outside the table fails, named or not, and an `if` emits only its
condition and its second named child.

## Model

| member | source | states |
|---|---|---|
| ToZigProperties.HeaderIsOneLine | to_zig.py:26-28 | `Header` is exactly one line, `const std = @import("std");`, ended by a newline |
| ToZigProperties.DiagnosticTemplates | to_zig.py:22-24 | `DiagnosticHeaders` has a template for `%error` alone, `Error occurred: {s}`; `%warn` and `%message` have none |
| ToZigProperties.TableKinds | to_zig.py:30-43 | `Rules`, the table's keys, has eleven kinds; `assign`, `append_assign`, `rule`, `directive`, `not` and `ERROR` are not among them |
| ToZig.Zigify | to_zig.py:17-43 | every escaping unknown-type error names a type outside the eleven-entry table, and every unknown-marker error a marker without a template |
| ToZig.ZigifyAll | to_zig.py:31 | mapping the renderer over children yields one rendering per child, and its errors keep the same guarantees |
| ToZig.Diagnostic | to_zig.py:22-34 | a diagnostic renders exactly when it has two children and the first is the `%error` marker; otherwise it fails with a missing child or an unknown marker |
| ToZig.DiagnosticCall | to_zig.py:34 | the print call is the fixed opening, the format string, a fixed middle, the message and a fixed closing; format and message sit unescaped at fixed offsets |
| ToZig.Comment | to_zig.py:35 | the output begins with `//` and ends with a newline, and is 2 longer than a non-empty text (3 characters for an empty one) |
| ToZigProperties.OnlyTableKindsRender | to_zig.py:17-20 | rendering succeeds only on the table's kinds, and a node of any other kind fails with the unknown-type error for its own kind |
| ToZigProperties.ZigifySucceedsIffRenderable | to_zig.py:17-43 | rendering succeeds exactly on the trees `Renderable` describes: table kinds along every rendered path, `if` with `cond` and a second named child, diagnostics with `%error` and a message |
| ToZigProperties.ZigifyAllSucceeds | to_zig.py:31 | the children render exactly when each does, and the i-th rendering is the i-th child's, in the original order |
| ToZigProperties.ZigifyAllFirstFailure | to_zig.py:31 | the error of the children is the error of the first failing child |
| ToZigProperties.BodyJoinsChildren | to_zig.py:26-31 | a body renders as the header followed by its children's renderings joined by newlines |
| ToZigProperties.BodyFailsWithFirstFailingChild | to_zig.py:31 | a body fails with the error of its first failing child |
| ToZigProperties.BodyFailsIfAnyChildFails | to_zig.py:31 | a failure in any child makes the whole body fail |
| ToZigProperties.BodyFailsOnUnknownChild | to_zig.py:17-31 | a child of an unknown type anywhere in a body makes the body fail |
| ToZigProperties.BodyStartsWithHeader | to_zig.py:26-31 | every rendered body or source file opens with the header |
| ToZigProperties.IfThenBodyRepeatsHeader | to_zig.py:26-33 | the header is emitted again for a nested body: an `if` whose then-branch is a body opens its Zig block with the header |
| ToZigProperties.SourceFileRendersAsBody | to_zig.py:31-32 | `source_file` renders exactly as `body` on the same node |
| ToZigProperties.IfRendering | to_zig.py:33 | `if` renders as `if (cond) {\n then \n}`; fails with a missing `cond` field, else with the condition's error, else with a missing second named child, else with that child's error |
| ToZigProperties.IfDropsOtherChildren | to_zig.py:33 | only `cond` and the second named child matter: `elif`/`else` clauses and all other children are dropped |
| ToZigProperties.DiagnosticRendering | to_zig.py:22-34 | a diagnostic renders only with the `%error` marker, as the print call with the second child's text; any other marker fails as unknown; no children fails on `children[0]`, and `%error` without a message child fails on `children[1]` |
| ToZigProperties.DiagnosticMessageRecoverable | to_zig.py:34 | the printed message sits verbatim between a fixed prefix and suffix of the print call |
| ToZigProperties.CommentRoundTrip | to_zig.py:35 | a `#...` comment becomes one `//` line 2 characters longer, and putting `#` back in place of `//` and dropping the newline gives the original text |
| ToZigProperties.TextRulesEmitSourceText | to_zig.py:36-37 | `identifier` and `is_defined` emit their own text verbatim, whatever their children |
| ToZigProperties.TokenRulesAreFixed | to_zig.py:39-42 | `defined` emits `std.env.getVar` and `!`, `(`, `)` emit themselves, whatever the node's text and children |
| Lines.Join | to_zig.py:31 | the newline join of no parts is empty, and a non-empty join opens with its first part; `JoinSplit`, `SplitJoin`, `JoinLength` and `JoinAppend` pin down the rest |
| Lines.Split | to_zig.py:31 | the inverse of the newline join: at least one piece, and no piece contains a newline |
| Lines.JoinSplit | to_zig.py:31 | joining the pieces of a split gives back the text |
| Lines.SplitJoin | to_zig.py:31 | splitting the newline join of newline-free parts gives back the parts |
| Lines.JoinLength | to_zig.py:31 | the joined text is the parts' total length plus one newline between neighbours |
| Lines.JoinAppend | to_zig.py:31 | joining two non-empty lists is joining each and gluing with one newline |

## Left out

- Building the tree-sitter grammar into a shared library and loading it (to_zig.py:45-53): foreign native code and file-system I/O.
- The command-line entry point (to_zig.py:55-70): argument parsing, reading the input file, printing the result.
- Parsing: the tree is an input. The grammar in tree-sitter/grammar.js only shapes `Syntax.Node`; the model does not require `namedChildren` to be a subsequence of `children` or `cond` to be one of them, because no rule depends on it.
- UTF-8 decoding of node text: node text is modelled as an already-decoded `string`.
- Python's recursion limit: a tree nested deeper than the interpreter's stack allows raises `RecursionError`; the model renders any finite tree.
- Exception messages: an error carries the node type or marker the exception names, not the message text (`unknown ast node type: '...'` for an unknown type).
- bmakeparser.py and pyparsingutil.py: pyparsing grammar construction over a library that is not part of this model.
