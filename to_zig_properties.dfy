/** What the renderer's rules promise, stated over whole trees. */
module ToZigProperties {
  import opened Wrappers
  import opened Syntax
  import opened ToZig
  import Lines

  // ---------------------------------------------------------------------------
  // The module-level tables

  /** The header is the single Zig line that imports the standard library. */
  lemma {:induction false} HeaderIsOneLine()
    ensures Lines.Split(Header) == ["const std = @import(\"std\");", ""]
  {
    var line := "const std = @import(\"std\");";
    assert '\n' !in line;
    Lines.SplitJoin([line, ""]);
    assert Lines.Join([line, ""]) == Header;
  }

  /** Only the `%error` marker has a template; the grammar's `%warn` and `%message` have none. */
  lemma DiagnosticTemplates()
    ensures forall m :: m in DiagnosticHeaders <==> m == "%error"
    ensures "%warn" !in DiagnosticHeaders && "%message" !in DiagnosticHeaders
    ensures DiagnosticHeaders["%error"] == "Error occurred: {s}"
  {
  }

  /**
   * The table has eleven rules; the grammar's statements `assign`, `rule`
   * and `directive`, its `not` expression and tree-sitter's `ERROR` nodes
   * are not among them.
   */
  lemma TableKinds()
    ensures |Rules| == 11
    ensures forall k :: k in ["assign", "append_assign", "rule", "directive", "not", "ERROR"] ==> k !in Rules
  {
  }

  // ---------------------------------------------------------------------------
  // Dispatch

  /** Only the eleven table kinds render; any other kind fails on the spot, whatever the node holds. */
  lemma OnlyTableKindsRender(n: Node)
    ensures Zigify(n).Success? ==> n.kind in Rules
    ensures n.kind !in Rules <==> Zigify(n) == Failure(UnknownNodeType(n.kind))
  {
  }

  /**
   * An independent description of the trees that render: every node on a
   * path the rules follow has a table kind, an `if` has its `cond` field and
   * a second named child, and a diagnostic starts with the `%error` marker
   * and has a message child.
   */
  ghost predicate Renderable(n: Node)
    decreases n
  {
    && n.kind in {"body", "source_file", "if", "diagnostic", "comment", "is_defined", "identifier", "defined", "!", "(", ")"}
    && ((n.kind == "body" || n.kind == "source_file") ==>
          forall i :: 0 <= i < |n.children| ==> Renderable(n.children[i]))
    && (n.kind == "if" ==>
          && n.cond.Some? && Renderable(n.cond.value)
          && |n.namedChildren| >= 2 && Renderable(n.namedChildren[1]))
    && (n.kind == "diagnostic" ==>
          |n.children| >= 2 && n.children[0].kind == "%error")
  }

  /** Rendering succeeds exactly on the trees described by `Renderable`. */
  lemma {:induction false} ZigifySucceedsIffRenderable(n: Node)
    decreases n
    ensures Zigify(n).Success? <==> Renderable(n)
  {
    if n.kind == "body" || n.kind == "source_file" {
      forall i | 0 <= i < |n.children|
        ensures Zigify(n.children[i]).Success? <==> Renderable(n.children[i])
      {
        ZigifySucceedsIffRenderable(n.children[i]);
      }
      ZigifyAllSucceeds(n.children);
    } else if n.kind == "if" {
      if n.cond.Some? {
        ZigifySucceedsIffRenderable(n.cond.value);
      }
      if |n.namedChildren| >= 2 {
        ZigifySucceedsIffRenderable(n.namedChildren[1]);
      }
    }
  }

  // ---------------------------------------------------------------------------
  // Rendering a list of children

  /** All children render exactly when each one does, and the i-th result is the i-th child's. */
  lemma {:induction false} ZigifyAllSucceeds(cs: seq<Node>)
    ensures ZigifyAll(cs).Success? <==> forall i :: 0 <= i < |cs| ==> Zigify(cs[i]).Success?
    ensures ZigifyAll(cs).Success? ==>
      forall i :: 0 <= i < |cs| ==> ZigifyAll(cs).value[i] == Zigify(cs[i]).value
  {
    if cs != [] {
      ZigifyAllSucceeds(cs[1..]);
      assert forall i :: 1 <= i < |cs| ==> cs[1..][i - 1] == cs[i];
    }
  }

  /** The error of a list is the error of its first failing child; later children are never consulted. */
  lemma {:induction false} ZigifyAllFirstFailure(cs: seq<Node>, k: nat)
    requires k < |cs| && Zigify(cs[k]).Failure?
    requires forall j :: 0 <= j < k ==> Zigify(cs[j]).Success?
    ensures ZigifyAll(cs) == Failure(Zigify(cs[k]).error)
  {
    if k > 0 {
      assert forall j :: 0 <= j < k - 1 ==> cs[1..][j] == cs[j + 1];
      ZigifyAllFirstFailure(cs[1..], k - 1);
    }
  }

  // ---------------------------------------------------------------------------
  // body and source_file

  /** A body is the header followed by its children's renderings, in order, joined by newlines. */
  lemma {:induction false} BodyJoinsChildren(n: Node, parts: seq<string>)
    requires n.kind == "body" || n.kind == "source_file"
    requires |parts| == |n.children|
    requires forall i :: 0 <= i < |parts| ==> Zigify(n.children[i]) == Success(parts[i])
    ensures Zigify(n) == Success(Header + Lines.Join(parts))
  {
    ZigifyAllSucceeds(n.children);
    assert ZigifyAll(n.children).value == parts;
  }

  /** A body fails with the error of its first failing child. */
  lemma BodyFailsWithFirstFailingChild(n: Node, k: nat)
    requires n.kind == "body" || n.kind == "source_file"
    requires k < |n.children| && Zigify(n.children[k]).Failure?
    requires forall j :: 0 <= j < k ==> Zigify(n.children[j]).Success?
    ensures Zigify(n) == Failure(Zigify(n.children[k]).error)
  {
    ZigifyAllFirstFailure(n.children, k);
  }

  /** A failure in any child makes the whole body fail. */
  lemma BodyFailsIfAnyChildFails(n: Node, k: nat)
    requires n.kind == "body" || n.kind == "source_file"
    requires k < |n.children| && Zigify(n.children[k]).Failure?
    ensures Zigify(n).Failure?
  {
    ZigifyAllSucceeds(n.children);
  }

  /** A child of a kind outside the table makes the whole body fail, wherever it stands. */
  lemma BodyFailsOnUnknownChild(n: Node, k: nat)
    requires n.kind == "body" || n.kind == "source_file"
    requires k < |n.children| && n.children[k].kind !in Rules
    ensures Zigify(n).Failure?
  {
    BodyFailsIfAnyChildFails(n, k);
  }

  /** Every rendered body opens with the header. */
  lemma BodyStartsWithHeader(n: Node)
    requires n.kind == "body" || n.kind == "source_file"
    requires Zigify(n).Success?
    ensures Header <= Zigify(n).value
  {
  }

  /** `source_file` renders exactly as `body` does on the same node. */
  lemma SourceFileRendersAsBody(n: Node)
    ensures Zigify(n.(kind := "source_file")) == Zigify(n.(kind := "body"))
  {
  }

  // ---------------------------------------------------------------------------
  // if

  /**
   * An `if` renders its `cond` field and its second named child into a Zig
   * `if`; it fails when either is absent or fails, the condition being
   * examined first.
   */
  lemma IfRendering(n: Node)
    requires n.kind == "if"
    ensures n.cond.None? ==> Zigify(n) == Failure(MissingField("cond"))
    ensures n.cond.Some? && Zigify(n.cond.value).Failure? ==> Zigify(n) == Zigify(n.cond.value)
    ensures n.cond.Some? && Zigify(n.cond.value).Success? && |n.namedChildren| < 2 ==>
      Zigify(n) == Failure(MissingNamedChild(1))
    ensures (n.cond.Some? && Zigify(n.cond.value).Success? && |n.namedChildren| >= 2
             && Zigify(n.namedChildren[1]).Failure?) ==> Zigify(n) == Zigify(n.namedChildren[1])
    ensures Zigify(n).Success? <==>
      && n.cond.Some? && Zigify(n.cond.value).Success?
      && |n.namedChildren| >= 2 && Zigify(n.namedChildren[1]).Success?
    ensures Zigify(n).Success? ==>
      Zigify(n).value == "if (" + Zigify(n.cond.value).value + ") {\n" + Zigify(n.namedChildren[1]).value + "\n}"
  {
  }

  /**
   * No other child of an `if` is emitted: two `if` nodes with the same
   * condition and the same second named child render alike, whatever
   * `elif`/`else` clauses, text or other children they carry.
   */
  lemma IfDropsOtherChildren(n: Node, m: Node)
    requires n.kind == "if" && m.kind == "if"
    requires n.cond == m.cond
    requires |n.namedChildren| >= 2 && |m.namedChildren| >= 2
    requires n.namedChildren[1] == m.namedChildren[1]
    ensures Zigify(n) == Zigify(m)
  {
  }

  /**
   * The header is emitted again for every nested body: an `if` whose
   * then-branch is a body opens its Zig block with a second header.
   */
  lemma IfThenBodyRepeatsHeader(n: Node)
    requires n.kind == "if" && Zigify(n).Success?
    requires |n.namedChildren| >= 2 && n.namedChildren[1].kind == "body"
    ensures "if (" + Zigify(n.cond.value).value + ") {\n" + Header <= Zigify(n).value
  {
  }

  // ---------------------------------------------------------------------------
  // diagnostic

  const ErrorPrintPrefix: string := "std.debug.print(\"Error occurred: {s}\", .{\""
  const ErrorPrintSuffix: string := "\"});\n"

  /**
   * A diagnostic renders only with the `%error` marker, as a print of the
   * message child's text; any other marker (`%warn`, `%message`, ...) is an
   * unknown marker.
   */
  lemma DiagnosticRendering(n: Node)
    requires n.kind == "diagnostic"
    ensures Zigify(n).Success? <==> |n.children| >= 2 && n.children[0].kind == "%error"
    ensures Zigify(n).Success? ==>
      Zigify(n).value == ErrorPrintPrefix + n.children[1].text + ErrorPrintSuffix
    ensures |n.children| >= 1 && n.children[0].kind != "%error" ==>
      Zigify(n) == Failure(UnknownDiagnosticMarker(n.children[0].kind))
    ensures |n.children| == 0 ==> Zigify(n) == Failure(MissingChild(0))
    ensures |n.children| == 1 && n.children[0].kind == "%error" ==> Zigify(n) == Failure(MissingChild(1))
  {
    assert Zigify(n) == Diagnostic(n.children);
    if |n.children| >= 2 && n.children[0].kind == "%error" {
      assert Zigify(n).value == DiagnosticCall("Error occurred: {s}", n.children[1].text);
      ErrorPrintCall(n.children[1].text);
    }
  }

  /** The `%error` print call is a fixed prefix, the message and a fixed suffix. */
  lemma ErrorPrintCall(message: string)
    ensures DiagnosticCall("Error occurred: {s}", message) == ErrorPrintPrefix + message + ErrorPrintSuffix
  {
  }

  /** The message is recoverable from the emitted print call: it sits between the fixed prefix and suffix. */
  lemma {:induction false} DiagnosticMessageRecoverable(message: string)
    ensures var out := DiagnosticCall("Error occurred: {s}", message);
      && |out| == |ErrorPrintPrefix| + |message| + |ErrorPrintSuffix|
      && out[..|ErrorPrintPrefix|] == ErrorPrintPrefix
      && out[|ErrorPrintPrefix|..|out| - |ErrorPrintSuffix|] == message
      && out[|out| - |ErrorPrintSuffix|..] == ErrorPrintSuffix
  {
    ErrorPrintCall(message);
  }

  // ---------------------------------------------------------------------------
  // comment

  /**
   * A comment token (`#` then the rest of the line) becomes exactly one Zig
   * line comment: `//`, the text after `#`, a newline; and the original text
   * is recovered by putting `#` back.
   */
  lemma {:induction false} CommentRoundTrip(n: Node)
    requires n.kind == "comment"
    requires |n.text| >= 1 && n.text[0] == '#' && '\n' !in n.text
    ensures Zigify(n).Success?
    ensures |Zigify(n).value| == |n.text| + 2
    ensures Lines.Split(Zigify(n).value) == [Zigify(n).value[..|Zigify(n).value| - 1], ""]
    ensures "#" + Zigify(n).value[2..|Zigify(n).value| - 1] == n.text
  {
    var out := Zigify(n).value;
    var line := "//" + n.text[1..];
    assert out == line + "\n";
    assert '\n' !in line by {
      forall i | 2 <= i < |line| ensures line[i] == n.text[i - 1] { }
    }
    Lines.SplitJoin([line, ""]);
    assert Lines.Join([line, ""]) == out;
    assert out[2..|out| - 1] == n.text[1..];
    assert "#" + n.text[1..] == n.text;
  }

  // ---------------------------------------------------------------------------
  // identifier, is_defined and the tokens

  /** `identifier` and `is_defined` emit the node's own text verbatim; children are never visited. */
  lemma TextRulesEmitSourceText(n: Node)
    requires n.kind == "identifier" || n.kind == "is_defined"
    ensures Zigify(n) == Success(n.text)
    ensures forall cs :: Zigify(n.(children := cs)) == Success(n.text)
  {
  }

  /** Token nodes render to fixed strings regardless of their text and children. */
  lemma TokenRulesAreFixed(n: Node)
    requires n.kind in {"defined", "!", "(", ")"}
    ensures n.kind == "defined" ==> Zigify(n) == Success("std.env.getVar")
    ensures n.kind != "defined" ==> Zigify(n) == Success(n.kind)
    ensures forall t, cs :: Zigify(n.(text := t, children := cs)) == Zigify(n)
  {
  }
}
