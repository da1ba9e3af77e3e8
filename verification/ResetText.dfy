/**
 The generator as it is written: procedures that append Go source to a string builder while they descend into types.
 Each is proved to append the text of the statements `ResetGen.Emit` gives for the same field.
 */
module ResetText {
  import opened Wrappers
  import opened GoTypes
  import opened ResetGen

  // Text of paths and statements.

  function PathText(recv: string, p: Path): string {
    match p
    case Recv => recv
    case Sel(base, f) => PathText(recv, base) + "." + f
    case Deref(base) => "(*" + PathText(recv, base) + ")"
  }

  /** The line a statement starts with. */
  function HeadText(recv: string, s: Stmt): string {
    var x := PathText(recv, s.p);
    match s
    case SetFalse(_) => x + " = false"
    case SetEmpty(_) => x + " = \"\""
    case SetZero(_) => x + " = 0"
    case Truncate(_) => x + " = " + x + "[:0]"
    case Clear(_) => "clear(" + x + ")"
    case IfNonNil(_, _) => "if " + x + " != nil {"
    case CallReset(_, _) => x + ".Reset()"
    case IfResetter(_) => "if r, ok := " + x + ".(interface{ Reset() }); ok {"
  }

  function Line(indent: string, content: string): string {
    indent + content + "\n"
  }

  function StmtText(recv: string, indent: string, s: Stmt): string
    decreases s, 1
  {
    var head := Line(indent, HeadText(recv, s));
    match s
    case IfNonNil(_, body) => head + (Text(recv, indent + "\t", body) + Line(indent, "}"))
    case IfResetter(_) => head + (Line(indent + "\t", "r.Reset()") + Line(indent, "}"))
    case _ => head
  }

  function Text(recv: string, indent: string, ss: seq<Stmt>): string
    decreases ss, 0
  {
    if |ss| == 0 then "" else StmtText(recv, indent, ss[0]) + Text(recv, indent, ss[1..])
  }

  lemma {:induction false} TextAppend(recv: string, indent: string, ss: seq<Stmt>, ts: seq<Stmt>)
    ensures Text(recv, indent, ss + ts) == Text(recv, indent, ss) + Text(recv, indent, ts)
    decreases |ss|
  {
    if |ss| == 0 {
      assert ss + ts == ts;
    } else {
      assert (ss + ts)[1..] == ss[1..] + ts;
      TextAppend(recv, indent, ss[1..], ts);
    }
  }

  lemma TextOne(recv: string, indent: string, s: Stmt)
    ensures Text(recv, indent, [s]) == StmtText(recv, indent, s)
  {
  }

  lemma Assoc(a: string, b: string, c: string)
    ensures a + b + c == a + (b + c)
  {
  }

  /** `strings.Builder`. */
  class Builder {
    var text: string

    constructor ()
      ensures text == ""
    {
      text := "";
    }

    method WriteString(s: string)
      modifies this
      ensures text == old(text) + s
    {
      text := text + s;
    }
  }

  method EmitBasicText(buf: Builder, access: string, kind: BasicKind, indent: string, ghost recv: string, ghost p: Path)
    requires access == PathText(recv, p)
    modifies buf
    ensures buf.text == old(buf.text) + Text(recv, indent, ResetGen.EmitBasic(p, kind))
  {
    ghost var ss := ResetGen.EmitBasic(p, kind);
    if |ss| == 1 { TextOne(recv, indent, ss[0]); }
    match kind
    case Boolean => buf.WriteString(Line(indent, access + " = false"));
    case String => buf.WriteString(Line(indent, access + " = \"\""));
    case Numeric => buf.WriteString(Line(indent, access + " = 0"));
    case OtherBasic =>
  }

  /** `fuel` witnesses that the descent stops; the source has no such bound. */
  method EmitField(buf: Builder, access: string, t: GoType, env: Env, indent: string,
      ghost fuel: nat, ghost recv: string, ghost p: Path)
    requires access == PathText(recv, p)
    requires Emit(env, fuel, p, t).Some?
    modifies buf
    ensures buf.text == old(buf.text) + Text(recv, indent, Emit(env, fuel, p, t).value)
    decreases fuel, t, 2
  {
    match t
    case Basic(kind) => EmitBasicText(buf, access, kind, indent, recv, p);
    case Slice(_) =>
      TextOne(recv, indent, Truncate(p));
      buf.WriteString(Line(indent, access + " = " + access + "[:0]"));
    case Map(_, _) =>
      TextOne(recv, indent, Clear(p));
      buf.WriteString(Line(indent, "clear(" + access + ")"));
    case Pointer(_) => EmitPointer(buf, access, t, env, indent, fuel, recv, p);
    case Named(n) =>
      if HasOrWillHaveReset(env, t) {
        TextOne(recv, indent, CallReset(p, t));
        buf.WriteString(Line(indent, access + ".Reset()"));
        return;
      }
      EmitField(buf, access, Underlying(env, n), env, indent, fuel - 1, recv, p);
    case Struct(fields) => EmitFields(buf, access, fields, env, indent, fuel, recv, p);
    case Interface(_) =>
      InterfaceText(buf.text, recv, indent, p);
      buf.WriteString(Line(indent, "if r, ok := " + access + ".(interface{ Reset() }); ok {"));
      buf.WriteString(Line(indent + "\t", "r.Reset()"));
      buf.WriteString(Line(indent, "}"));
    case Untouched =>
  }

  lemma InterfaceText(start: string, recv: string, indent: string, p: Path)
    ensures start + Line(indent, HeadText(recv, IfResetter(p))) + Line(indent + "\t", "r.Reset()") + Line(indent, "}")
      == start + Text(recv, indent, [IfResetter(p)])
  {
    TextOne(recv, indent, IfResetter(p));
    Assoc3(start, Line(indent, HeadText(recv, IfResetter(p))), Line(indent + "\t", "r.Reset()"), Line(indent, "}"));
  }

  lemma Assoc3(a: string, b: string, c: string, d: string)
    ensures a + b + c + d == a + (b + (c + d))
  {
  }

  /** The pointer case of `emitField`. */
  method EmitPointer(buf: Builder, access: string, t: GoType, env: Env, indent: string,
      ghost fuel: nat, ghost recv: string, ghost p: Path)
    requires t.Pointer? && access == PathText(recv, p)
    requires Emit(env, fuel, p, t).Some?
    modifies buf
    ensures buf.text == old(buf.text) + Text(recv, indent, Emit(env, fuel, p, t).value)
    decreases fuel, t, 1
  {
    ghost var start := buf.text;
    ghost var guarded := Emit(env, fuel, p, t).value[0];
    TextOne(recv, indent, guarded);
    buf.WriteString(Line(indent, "if " + access + " != nil {"));
    if HasOrWillHaveReset(env, t) {
      TextOne(recv, indent + "\t", CallReset(p, t));
      buf.WriteString(Line(indent + "\t", access + ".Reset()"));
    } else {
      EmitField(buf, "(*" + access + ")", t.elem, env, indent + "\t", fuel, recv, Deref(p));
    }
    buf.WriteString(Line(indent, "}"));
    Assoc3(start, Line(indent, HeadText(recv, guarded)), Text(recv, indent + "\t", guarded.body), Line(indent, "}"));
  }

  /** `emitStruct`. */
  method EmitFields(buf: Builder, prefix: string, fields: seq<Field>, env: Env, indent: string,
      ghost fuel: nat, ghost recv: string, ghost p: Path)
    requires prefix == PathText(recv, p)
    requires EmitStruct(env, fuel, p, fields).Some?
    modifies buf
    ensures buf.text == old(buf.text) + Text(recv, indent, EmitStruct(env, fuel, p, fields).value)
    decreases fuel, fields, 0
  {
    for i := 0 to |fields|
      invariant EmitStruct(env, fuel, p, fields[..i]).Some?
      invariant buf.text == old(buf.text) + Text(recv, indent, EmitStruct(env, fuel, p, fields[..i]).value)
    {
      var f := fields[i];
      StructPrefix(env, fuel, p, fields, i);
      ghost var before := EmitStruct(env, fuel, p, fields[..i]).value;
      ghost var here := Emit(env, fuel, Sel(p, f.name), f.typ).value;
      EmitField(buf, prefix + "." + f.name, f.typ, env, indent, fuel, recv, Sel(p, f.name));
      TextAppend(recv, indent, before, here);
      Assoc(old(buf.text), Text(recv, indent, before), Text(recv, indent, here));
    }
    assert fields[..|fields|] == fields;
  }

  /** What the loop over the fields has emitted grows by the statements of the next field. */
  lemma {:induction false} StructPrefix(env: Env, fuel: nat, p: Path, fields: seq<Field>, i: nat)
    requires EmitStruct(env, fuel, p, fields).Some? && i < |fields|
    ensures EmitStruct(env, fuel, p, fields[..i]).Some? && Emit(env, fuel, Sel(p, fields[i].name), fields[i].typ).Some?
    ensures EmitStruct(env, fuel, p, fields[..i + 1]) ==
      Some(EmitStruct(env, fuel, p, fields[..i]).value + Emit(env, fuel, Sel(p, fields[i].name), fields[i].typ).value)
    decreases |fields|
  {
    var last := |fields| - 1;
    if i < last {
      StructPrefix(env, fuel, p, fields[..last], i);
      assert fields[..last][..i] == fields[..i] && fields[..last][..i + 1] == fields[..i + 1];
    } else {
      assert fields[..i + 1] == fields;
    }
  }

  // Whole files.

  /** The receiver name: the first letter of the type name, in lower case. */
  function ReceiverName(typeName: string): string {
    if |typeName| == 0 then "r"
    else if 'A' <= typeName[0] <= 'Z' then [typeName[0] - 'A' + 'a']
    else [typeName[0]]
  }

  function CommentText(n: string): string {
    Line("", "") + Line("", "// Reset сбрасывает поля " + n + " к нулевым значениям.")
  }

  function SignatureText(recv: string, n: string): string {
    Line("", "func (" + recv + " *" + n + ") Reset() {")
  }

  function NilCheckText(recv: string): string {
    Line("\t", "if " + recv + " == nil {") + Line("\t\t", "return") + Line("\t", "}")
  }

  function MethodHeader(recv: string, n: string): string {
    CommentText(n) + SignatureText(recv, n) + NilCheckText(recv)
  }

  /** A marked struct: its name, which is printed, and its qualified name, which identifies its type. */
  datatype Target = Target(name: string, qual: string)

  /** The method generated for a marked struct. */
  function MethodText(env: Env, t: Target): Option<string> {
    var recv, body := ReceiverName(t.name), MethodBody(env, t.qual);
    if body.None? then None
    else Some(MethodHeader(recv, t.name) + (Text(recv, "\t", body.value) + "}\n"))
  }

  function MethodsText(env: Env, targets: seq<Target>): Option<string> {
    if |targets| == 0 then Some("")
    else
      var last := |targets| - 1;
      var before, here := MethodsText(env, targets[..last]), MethodText(env, targets[last]);
      if before.None? || here.None? then None else Some(before.value + here.value)
  }

  const GENERATED_HEADER := "// Code generated by cmd/reset; DO NOT EDIT."

  lemma {:induction false} MethodsPrefix(env: Env, targets: seq<Target>, i: nat)
    requires MethodsText(env, targets).Some? && i < |targets|
    ensures MethodsText(env, targets[..i]).Some? && MethodText(env, targets[i]).Some?
    ensures MethodsText(env, targets[..i + 1]) ==
      Some(MethodsText(env, targets[..i]).value + MethodText(env, targets[i]).value)
    decreases |targets|
  {
    var last := |targets| - 1;
    if i < last {
      MethodsPrefix(env, targets[..last], i);
      assert targets[..last][..i] == targets[..i] && targets[..last][..i + 1] == targets[..i + 1];
    } else {
      assert targets[..i + 1] == targets;
    }
  }

  function FileText(pkgName: string, methods: string): string {
    GENERATED_HEADER + "\n\npackage " + pkgName + "\n" + methods
  }

  /** `renderPackage`, before `gofmt`. The targets are marked structs on which the generator stops. */
  method RenderPackage(pkgName: string, targets: seq<Target>, env: Env) returns (src: string)
    requires MethodsText(env, targets).Some?
    ensures src == FileText(pkgName, MethodsText(env, targets).value)
  {
    var body := new Builder();
    for i := 0 to |targets|
      invariant MethodsText(env, targets[..i]).Some?
      invariant body.text == MethodsText(env, targets[..i]).value
    {
      var t := targets[i];
      var recv := ReceiverName(t.name);
      MethodsPrefix(env, targets, i);
      ghost var before, text := body.text, Text(recv, "\t", MethodBody(env, t.qual).value);
      body.WriteString(CommentText(t.name));
      body.WriteString(SignatureText(recv, t.name));
      body.WriteString(NilCheckText(recv));
      Assoc3(before, CommentText(t.name), SignatureText(recv, t.name), NilCheckText(recv));
      Assoc(CommentText(t.name), SignatureText(recv, t.name), NilCheckText(recv));
      EmitFields(body, recv, Underlying(env, t.qual).fields, env, "\t", |env.decls| + 1, recv, Recv);
      body.WriteString("}\n");
      Assoc3(before, MethodHeader(recv, t.name), text, "}\n");
    }
    assert targets[..|targets|] == targets;
    src := GENERATED_HEADER + "\n\npackage " + pkgName + "\n" + body.text;
  }
}
