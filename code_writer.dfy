/** The line buffer every generator writes its output through
    (lib/CodeWriter.js): an indent level, an "inside a block comment" flag and
    the list of lines written so far.

    A callback passed to `bl` or `blComment` is arbitrary generator code; what
    matters to the writer is the sequence of writer calls it makes, so a
    callback is modelled as that sequence (`Body.Callback`). */
module CodeWriterModel {
  import opened Strings

  /** One call a callback makes on the writer. */
  datatype Op =
    | Ln(text: string)
    | Indent
    | Outdent
    | Bl(declaration: string, body: Body)
    | BlComment(comments: Body)

  /** The `body`/`comments` argument: a string (written as one line) or a
      callback. */
  datatype Body = Text(text: string) | Callback(ops: seq<Op>)

  /** The writer's fields, as a value. */
  datatype State = State(indentLevel: int, inBlComment: bool, lines: seq<string>)

  /** The line `ln(str)` appends in a given state: inside a block comment the
      text is prefixed with " * "; a non-empty line at a positive indent level
      gets two spaces per level. */
  function LineFor(indentLevel: int, inBlComment: bool, str: string): string
  {
    var s := if inBlComment then " * " + str else str;
    if |s| > 0 && indentLevel > 0 then Repeat("  ", indentLevel) + s else s
  }

  function AfterLn(st: State, str: string): State
  {
    st.(lines := st.lines + [LineFor(st.indentLevel, st.inBlComment, str)])
  }

  /** The state after one writer call. */
  function AfterOp(st: State, op: Op): State
    decreases op
  {
    match op
    case Ln(text) => AfterLn(st, text)
    case Indent => st.(indentLevel := st.indentLevel + 1)
    case Outdent => st.(indentLevel := st.indentLevel - 1)
    case Bl(declaration, body) =>
      var entered := AfterLn(st, declaration + " {").(indentLevel := st.indentLevel + 1);
      var inner := AfterBody(entered, body);
      AfterLn(inner.(indentLevel := inner.indentLevel - 1), "}")
    case BlComment(comments) =>
      var entered := AfterLn(st, "/**").(inBlComment := true);
      var inner := AfterBody(entered, comments);
      AfterLn(inner.(inBlComment := false), " */")
  }

  function AfterBody(st: State, body: Body): State
    decreases body
  {
    match body
    case Text(text) => AfterLn(st, text)
    case Callback(ops) => AfterOps(st, ops)
  }

  function AfterOps(st: State, ops: seq<Op>): State
    decreases ops
  {
    if ops == [] then st else AfterOps(AfterOp(st, ops[0]), ops[1..])
  }

  /** The net change of the indent level a call makes. */
  function NetIndent(op: Op): int
    decreases op
  {
    match op
    case Ln(_) => 0
    case Indent => 1
    case Outdent => -1
    case Bl(_, body) => BodyNetIndent(body)
    case BlComment(comments) => BodyNetIndent(comments)
  }

  function BodyNetIndent(body: Body): int
    decreases body
  {
    match body
    case Text(_) => 0
    case Callback(ops) => OpsNetIndent(ops)
  }

  function OpsNetIndent(ops: seq<Op>): int
    decreases ops
  {
    if ops == [] then 0 else NetIndent(ops[0]) + OpsNetIndent(ops[1..])
  }

  /** Writer calls only ever append lines, and move the indent level by their
      net indent. */
  lemma {:induction false} AfterOpFacts(st: State, op: Op)
    ensures st.lines <= AfterOp(st, op).lines
    ensures AfterOp(st, op).indentLevel == st.indentLevel + NetIndent(op)
    decreases op
  {
    match op
    case Ln(_) =>
    case Indent =>
    case Outdent =>
    case Bl(declaration, body) =>
      var entered := AfterLn(st, declaration + " {").(indentLevel := st.indentLevel + 1);
      AfterBodyFacts(entered, body);
    case BlComment(comments) =>
      var entered := AfterLn(st, "/**").(inBlComment := true);
      AfterBodyFacts(entered, comments);
  }

  lemma {:induction false} AfterBodyFacts(st: State, body: Body)
    ensures st.lines <= AfterBody(st, body).lines
    ensures AfterBody(st, body).indentLevel == st.indentLevel + BodyNetIndent(body)
    decreases body
  {
    match body
    case Text(_) =>
    case Callback(ops) => AfterOpsFacts(st, ops);
  }

  lemma {:induction false} AfterOpsFacts(st: State, ops: seq<Op>)
    ensures st.lines <= AfterOps(st, ops).lines
    ensures AfterOps(st, ops).indentLevel == st.indentLevel + OpsNetIndent(ops)
    decreases ops
  {
    if ops != [] {
      AfterOpFacts(st, ops[0]);
      AfterOpsFacts(AfterOp(st, ops[0]), ops[1..]);
    }
  }

  /** `bl(declaration, body)`: the first line it appends is `declaration {`
      at the entry indent, the last is `}`, written one level below the
      body's final level; so with a body whose indents and outdents balance
      (every string body does), `}` is at the entry indent and the writer
      leaves the indent level as it found it. */
  lemma BlShape(st: State, declaration: string, body: Body)
    ensures var r := AfterOp(st, Bl(declaration, body));
      && |r.lines| >= |st.lines| + 2
      && r.lines[..|st.lines|] == st.lines
      && r.lines[|st.lines|] == LineFor(st.indentLevel, st.inBlComment, declaration + " {")
      && r.indentLevel == st.indentLevel + BodyNetIndent(body)
      && Last(r.lines) == LineFor(r.indentLevel, r.inBlComment, "}")
    ensures BodyNetIndent(body) == 0 ==> AfterOp(st, Bl(declaration, body)).indentLevel == st.indentLevel
  {
    var entered := AfterLn(st, declaration + " {").(indentLevel := st.indentLevel + 1);
    AfterBodyFacts(entered, body);
  }

  /** `blComment(comments)`: the first line it appends is `/**`, the last is
      ` */`, and afterwards the writer is no longer inside a block comment;
      the indent level moves only as the comments' own calls move it. */
  lemma BlCommentShape(st: State, comments: Body)
    ensures var r := AfterOp(st, BlComment(comments));
      && |r.lines| >= |st.lines| + 2
      && r.lines[..|st.lines|] == st.lines
      && r.lines[|st.lines|] == LineFor(st.indentLevel, st.inBlComment, "/**")
      && Last(r.lines) == LineFor(r.indentLevel, false, " */")
      && !r.inBlComment
      && r.indentLevel == st.indentLevel + BodyNetIndent(comments)
  {
    var entered := AfterLn(st, "/**").(inBlComment := true);
    AfterBodyFacts(entered, comments);
  }

  /** `toString()` with its trailing line break removed splits back into the
      lines written, when no line itself holds a line break. */
  lemma ToStringLines(lines: seq<string>)
    requires |lines| >= 1
    requires forall i :: 0 <= i < |lines| ==> '\n' !in lines[i]
    ensures var text := Join(lines, "\n") + "\n";
      Split(text[..|text| - 1], '\n') == lines
  {
    var text := Join(lines, "\n") + "\n";
    assert text[..|text| - 1] == Join(lines, "\n");
    SplitJoin(lines, '\n');
  }

  class CodeWriter {
    var indentLevel: int
    var inBlComment: bool
    var lines: seq<string>

    function Snapshot(): State
      reads this
    {
      State(indentLevel, inBlComment, lines)
    }

    /** A new writer: level 0, outside any comment, no lines. The argument is
        ignored, as in the source. */
    constructor (initialIndentLevel: int)
      ensures Snapshot() == State(0, false, [])
    {
      indentLevel := 0;
      inBlComment := false;
      lines := [];
    }

    /** `ln(str)`: appends exactly one line and changes nothing else. */
    method Ln(str: string)
      modifies this
      ensures Snapshot() == AfterLn(old(Snapshot()), str)
      ensures lines == old(lines) + [LineFor(old(indentLevel), old(inBlComment), str)]
      ensures indentLevel == old(indentLevel) && inBlComment == old(inBlComment)
    {
      var s := str;
      if inBlComment {
        s := " * " + s;
      }
      if |s| > 0 && indentLevel > 0 {
        var pad := GetIndentString();
        lines := lines + [pad + s];
      } else {
        lines := lines + [s];
      }
    }

    method Indent()
      modifies this
      ensures indentLevel == old(indentLevel) + 1
      ensures lines == old(lines) && inBlComment == old(inBlComment)
    {
      indentLevel := indentLevel + 1;
    }

    method Outdent()
      modifies this
      ensures indentLevel == old(indentLevel) - 1
      ensures lines == old(lines) && inBlComment == old(inBlComment)
    {
      indentLevel := indentLevel - 1;
    }

    /** `bl(declaration, body)`. */
    method Bl(declaration: string, body: Body)
      modifies this
      ensures Snapshot() == AfterOp(old(Snapshot()), Op.Bl(declaration, body))
      decreases body, 2
    {
      Ln(declaration + " {");
      Indent();
      Call(body);
      Outdent();
      Ln("}");
    }

    /** `blComment(comments)`. */
    method BlComment(comments: Body)
      modifies this
      ensures Snapshot() == AfterOp(old(Snapshot()), Op.BlComment(comments))
      decreases comments, 2
    {
      Ln("/**");
      inBlComment := true;
      Call(comments);
      inBlComment := false;
      Ln(" */");
    }

    /** Runs a block's body: `body.call()` for a callback, `this.ln(body)`
        for a string. */
    method Call(body: Body)
      modifies this
      ensures Snapshot() == AfterBody(old(Snapshot()), body)
      decreases body, 1
    {
      match body
      case Text(text) => Ln(text);
      case Callback(ops) => Perform(ops);
    }

    /** The writer calls a callback makes, in order. */
    method Perform(ops: seq<Op>)
      modifies this
      ensures Snapshot() == AfterOps(old(Snapshot()), ops)
      decreases ops, 0
    {
      var i := 0;
      while i < |ops|
        invariant 0 <= i <= |ops|
        invariant AfterOps(old(Snapshot()), ops) == AfterOps(Snapshot(), ops[i..])
      {
        assert ops[i..][1..] == ops[i + 1..];
        PerformOne(ops[i]);
        i := i + 1;
      }
    }

    method PerformOne(op: Op)
      modifies this
      ensures Snapshot() == AfterOp(old(Snapshot()), op)
      decreases op, 3
    {
      match op
      case Ln(text) => Ln(text);
      case Indent => Indent();
      case Outdent => Outdent();
      case Bl(declaration, body) => Bl(declaration, body);
      case BlComment(comments) => BlComment(comments);
    }

    /** `toString()`: the lines joined by line breaks, plus a final one. */
    method ToString() returns (text: string)
      ensures text == Join(lines, "\n") + "\n"
    {
      text := Join(lines, "\n") + "\n";
    }

    /** `_getIndentString()`: two spaces per level. `'  '.repeat(n)` throws
        for a negative level; `ln` only asks at a positive level. */
    method GetIndentString() returns (pad: string)
      requires indentLevel >= 0
      ensures |pad| == 2 * indentLevel
      ensures forall k :: 0 <= k < |pad| ==> pad[k] == ' '
      ensures pad == Repeat("  ", indentLevel)
    {
      pad := "";
      var n := 0;
      while n < indentLevel
        invariant 0 <= n <= indentLevel
        invariant pad == Repeat("  ", n)
        invariant |pad| == 2 * n && forall k :: 0 <= k < |pad| ==> pad[k] == ' '
      {
        pad := "  " + pad;
        n := n + 1;
      }
    }

    /** `_lastCharIsLineBreak()`: true for an empty buffer; otherwise true
        exactly when the last non-empty line ends in a line break (and false
        when every line is empty). */
    method LastCharIsLineBreak() returns (r: bool)
      ensures r <==> (lines == [] ||
        exists i :: 0 <= i < |lines| && |lines[i]| > 0 && lines[i][|lines[i]| - 1] == '\n' &&
          forall j :: i < j < |lines| ==> lines[j] == [])
    {
      if |lines| == 0 {
        return true;
      }
      var i := |lines| - 1;
      while i >= 0
        invariant -1 <= i < |lines|
        invariant forall j :: i < j < |lines| ==> lines[j] == []
      {
        if |lines[i]| > 0 {
          r := lines[i][|lines[i]| - 1] == '\n';
          if !r {
            forall k | 0 <= k < |lines| && |lines[k]| > 0 && lines[k][|lines[k]| - 1] == '\n'
              ensures exists j :: k < j < |lines| && lines[j] != []
            {
              assert k < i;
            }
          }
          return;
        }
        i := i - 1;
      }
      return false;
    }
  }
}
