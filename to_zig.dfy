/**
 * The tree-to-Zig renderer: `zigify` and its dispatch table. Every rule turns a
 * node of a bmake syntax tree into Zig build-script text; a node whose kind has
 * no rule, or a diagnostic whose marker has no template, stops the whole render.
 */
module ToZig {
  import opened Wrappers
  import opened Syntax
  import Lines

  /** Why a render stops. Each case is an exception the renderer lets escape. */
  datatype Error =
    | UnknownNodeType(kind: string)           // `zigify` finds no rule for the node's kind (KeyError)
    | UnknownDiagnosticMarker(marker: string) // no template for a diagnostic marker (KeyError)
    | MissingField(field: string)             // a field the rule reads is absent (AttributeError on None)
    | MissingChild(index: nat)                // `children[index]` does not exist (IndexError)
    | MissingNamedChild(index: nat)           // `named_children[index]` does not exist (IndexError)

  /** The line every rendered body starts with. */
  const Header: string := "const std = @import(\"std\");\n"

  /** Diagnostic marker token -> Zig format string; only `%error` has one. */
  const DiagnosticHeaders: map<string, string> := map["%error" := "Error occurred: {s}"]

  /** The node kinds the dispatch table has a rule for. */
  const Rules: set<string> :=
    {"body", "source_file", "if", "diagnostic", "comment", "is_defined", "identifier", "defined", "!", "(", ")"}

  /**
   * Render one node: look its kind up in the table and apply the rule.
   * Every unknown-type error names a kind outside the table, and every
   * unknown-marker error names a marker without a template.
   */
  function Zigify(n: Node): (r: Result<string, Error>)
    decreases n
    ensures r.Failure? && r.error.UnknownNodeType? ==> r.error.kind !in Rules
    ensures r.Failure? && r.error.UnknownDiagnosticMarker? ==> r.error.marker !in DiagnosticHeaders
  {
    if n.kind !in Rules then Failure(UnknownNodeType(n.kind))
    // `source_file` applies the `body` rule to the node itself
    else if n.kind == "body" || n.kind == "source_file" then
      var parts :- ZigifyAll(n.children);
      Success(Header + Lines.Join(parts))
    else if n.kind == "if" then
      if n.cond.None? then Failure(MissingField("cond"))
      else
        var cond :- Zigify(n.cond.value);
        if |n.namedChildren| < 2 then Failure(MissingNamedChild(1))
        else
          var body :- Zigify(n.namedChildren[1]);
          Success("if (" + cond + ") {\n" + body + "\n}")
    else if n.kind == "diagnostic" then Diagnostic(n.children)
    else if n.kind == "comment" then Success(Comment(n.text))
    // `is_defined` applies the `identifier` rule to the node itself
    else if n.kind == "is_defined" || n.kind == "identifier" then Success(n.text)
    else if n.kind == "defined" then Success("std.env.getVar")
    else if n.kind == "!" then Success("!")
    else if n.kind == "(" then Success("(")
    else Success(")")
  }

  /**
   * `map(zigify, cs)` as consumed by `join`: every node rendered, in order;
   * the first failure stops the rest.
   */
  function ZigifyAll(cs: seq<Node>): (r: Result<seq<string>, Error>)
    decreases cs
    ensures r.Success? ==> |r.value| == |cs|
    ensures r.Failure? && r.error.UnknownNodeType? ==> r.error.kind !in Rules
    ensures r.Failure? && r.error.UnknownDiagnosticMarker? ==> r.error.marker !in DiagnosticHeaders
  {
    if cs == [] then Success([])
    else
      var first :- Zigify(cs[0]);
      var rest :- ZigifyAll(cs[1..]);
      Success([first] + rest)
  }

  /**
   * The `diagnostic` rule on the node's children: the marker token
   * (`children[0]`) selects the template, and the text of `children[1]`
   * becomes the printed message.
   */
  function Diagnostic(children: seq<Node>): (r: Result<string, Error>)
    ensures r.Success? <==> |children| >= 2 && children[0].kind == "%error"
    ensures r.Failure? ==> r.error.MissingChild? || r.error.UnknownDiagnosticMarker?
  {
    if |children| == 0 then Failure(MissingChild(0))
    else if children[0].kind !in DiagnosticHeaders then Failure(UnknownDiagnosticMarker(children[0].kind))
    else if |children| < 2 then Failure(MissingChild(1))
    else Success(DiagnosticCall(DiagnosticHeaders[children[0].kind], children[1].text))
  }

  /**
   * A Zig `std.debug.print` call with the given format string and one string
   * argument. Both are copied unescaped and can be read back at fixed offsets.
   */
  function DiagnosticCall(format: string, message: string): (r: string)
    ensures |r| == 17 + |format| + 6 + |message| + 5
    ensures r[..17] == "std.debug.print(\"" && r[17..17 + |format|] == format
    ensures r[17 + |format|..23 + |format|] == "\", .{\""
    ensures r[|r| - 5 - |message|..|r| - 5] == message && r[|r| - 5..] == "\"});\n"
  {
    "std.debug.print(\"" + format + "\", .{\"" + message + "\"});\n"
  }

  /** The `comment` rule: `#` becomes `//` and the line is ended. */
  function Comment(text: string): (r: string)
    ensures |r| == if text == [] then 3 else |text| + 2
    ensures r[..2] == "//" && r[|r| - 1] == '\n'
  {
    // Python's `text[1:]` is empty for an empty text
    "//" + (if text == [] then "" else text[1..]) + "\n"
  }
}
