/**
 The generated text parses back in one way: equal texts come from equal access paths and equal statements. Only the
 static type of a call is not written down.
 */
module ResetTextUnique {
  import opened Wrappers
  import opened GoTypes
  import opened ResetGen
  import opened ResetText

  predicate IsIdentChar(c: char) {
    'a' <= c <= 'z' || 'A' <= c <= 'Z' || '0' <= c <= '9' || c == '_' || c as int >= 128
  }

  predicate IsIdent(s: string) {
    |s| > 0 && forall i :: 0 <= i < |s| ==> IsIdentChar(s[i])
  }

  predicate ProperPath(p: Path) {
    match p
    case Recv => true
    case Sel(base, f) => ProperPath(base) && IsIdent(f)
    case Deref(base) => ProperPath(base)
  }

  predicate Proper(s: Stmt) {
    ProperPath(s.p) && (s.IfNonNil? ==> forall t :: t in s.body ==> Proper(t))
  }

  predicate AllProper(ss: seq<Stmt>) {
    forall s :: s in ss ==> Proper(s)
  }

  /** The statement without what the text leaves out. */
  function Erase(s: Stmt): Stmt
    decreases s, 1
  {
    match s
    case CallReset(p, _) => CallReset(p, Untouched)
    case IfNonNil(p, body) => IfNonNil(p, EraseAll(body))
    case _ => s
  }

  function EraseAll(ss: seq<Stmt>): seq<Stmt>
    decreases ss, 0
  {
    if |ss| == 0 then [] else [Erase(ss[0])] + EraseAll(ss[1..])
  }

  // Paths.

  /** The text of a path ends in a letter, digit or closing parenthesis and has no line break. */
  lemma {:induction false} PathChars(recv: string, p: Path)
    requires IsIdent(recv) && ProperPath(p)
    ensures var x := PathText(recv, p); |x| > 0 && '\n' !in x && (IsIdentChar(x[|x| - 1]) || x[|x| - 1] == ')')
  {
    match p
    case Recv =>
    case Sel(base, f) => PathChars(recv, base);
    case Deref(base) => PathChars(recv, base);
  }

  lemma SplitAtDot(a: string, f: string, b: string, g: string)
    requires IsIdent(f) && IsIdent(g)
    requires a + "." + f == b + "." + g
    ensures a == b && f == g
  {
    var x := a + "." + f;
    assert x[|a|] == '.' && x[|b|] == '.';
    assert forall i :: |a| < i < |x| ==> x[i] == f[i - |a| - 1];
    assert forall i :: |b| < i < |x| ==> x[i] == g[i - |b| - 1];
    assert |a| == |b|;
    assert a == x[..|a|] && b == x[..|a|] && f == x[|a| + 1..] && g == x[|a| + 1..];
  }

  lemma {:induction false} PathUnique(recv: string, p: Path, q: Path)
    requires IsIdent(recv) && ProperPath(p) && ProperPath(q)
    requires PathText(recv, p) == PathText(recv, q)
    ensures p == q
  {
    var x := PathText(recv, p);
    PathEnd(recv, p);
    PathEnd(recv, q);
    if p.Deref? {
      var y, z := PathText(recv, p.base), PathText(recv, q.base);
      assert y == x[2..|x| - 1] && z == x[2..|x| - 1];
      PathUnique(recv, p.base, q.base);
    } else if p.Sel? {
      SplitAtDot(PathText(recv, p.base), p.field, PathText(recv, q.base), q.field);
      PathUnique(recv, p.base, q.base);
    }
  }

  /** The last character, and the presence of a dot, tell the three forms of a path apart. */
  lemma PathEnd(recv: string, p: Path)
    requires IsIdent(recv) && ProperPath(p)
    ensures var x := PathText(recv, p); |x| > 0 && (p.Deref? <==> x[|x| - 1] == ')')
    ensures p.Sel? ==> '.' in PathText(recv, p)
    ensures p.Recv? ==> '.' !in PathText(recv, p)
  {
  }

  // First lines.

  /** Which statement a line starts, read off its end. */
  function LineKind(x: string): nat {
    if |x| < 3 then 0
    else match x[|x| - 1]
      case 'e' => 1
      case '"' => 2
      case '0' => 3
      case ']' => 4
      case ')' => if x[|x| - 2] == '(' then 5 else 6
      case '{' => if x[|x| - 3] == 'l' then 7 else 8
      case _ => 0
  }

  function Kind(s: Stmt): nat {
    match s
    case SetFalse(_) => 1
    case SetEmpty(_) => 2
    case SetZero(_) => 3
    case Truncate(_) => 4
    case CallReset(_, _) => 5
    case Clear(_) => 6
    case IfNonNil(_, _) => 7
    case IfResetter(_) => 8
  }

  lemma HeadKind(recv: string, s: Stmt)
    requires IsIdent(recv) && ProperPath(s.p)
    ensures LineKind(HeadText(recv, s)) == Kind(s)
    ensures '\n' !in HeadText(recv, s)
  {
    PathChars(recv, s.p);
    var x, y := PathText(recv, s.p), HeadText(recv, s);
    match s
    case Clear(_) => assert y[|y| - 2] == x[|x| - 1];
    case IfNonNil(_, _) => assert y[|y| - 3] == 'l' && y[|y| - 1] == '{';
    case IfResetter(_) => assert y[|y| - 3] == 'k' && y[|y| - 1] == '{';
    case CallReset(_, _) => assert y[|y| - 2] == '(' && y[|y| - 1] == ')';
    case Truncate(_) => assert y[|y| - 1] == ']';
    case _ =>
  }

  lemma HeadUnique(recv: string, s: Stmt, t: Stmt)
    requires IsIdent(recv) && ProperPath(s.p) && ProperPath(t.p)
    requires HeadText(recv, s) == HeadText(recv, t)
    ensures Kind(s) == Kind(t) && s.p == t.p
  {
    HeadKind(recv, s);
    HeadKind(recv, t);
    var head, x, y := HeadText(recv, s), PathText(recv, s.p), PathText(recv, t.p);
    assert |x| == |y|;
    var start := if s.Clear? then 6 else if s.IfNonNil? then 3 else if s.IfResetter? then 12 else 0;
    assert head[start..start + |x|] == x;
    assert head[start..start + |x|] == y;
    PathUnique(recv, s.p, t.p);
  }

  // Whole texts.

  lemma SplitLine(indent: string, a: string, r: string, b: string, q: string)
    requires '\n' !in a && '\n' !in b
    requires Line(indent, a) + r == Line(indent, b) + q
    ensures a == b && r == q
  {
    var x := Line(indent, a) + r;
    var n := |indent|;
    assert x[n + |a|] == '\n' && x[n + |b|] == '\n';
    assert forall i :: n <= i < n + |a| ==> x[i] == a[i - n];
    assert forall i :: n <= i < n + |b| ==> x[i] == b[i - n];
    assert |a| == |b|;
    assert a == x[n..n + |a|] && b == x[n..n + |a|];
    assert r == x[n + |a| + 1..] && q == x[n + |a| + 1..];
  }

  /** What follows a block of statements at `indent`: a closing brace one tab to the left. */
  predicate Closes(indent: string, k: string) {
    && |indent| > 0 && indent[|indent| - 1] == '\t'
    && |k| >= |indent|
    && k[|indent| - 1] == '}'
  }

  lemma {:induction false} TextUnique(recv: string, indent: string, ss: seq<Stmt>, k: string, ts: seq<Stmt>, k': string)
    requires IsIdent(recv) && AllProper(ss) && AllProper(ts)
    requires Closes(indent, k) && Closes(indent, k')
    requires Text(recv, indent, ss) + k == Text(recv, indent, ts) + k'
    ensures EraseAll(ss) == EraseAll(ts) && k == k'
    decreases ss
  {
    if |ss| == 0 || |ts| == 0 {
      assert "" + k == k && "" + k' == k';
      if |ss| > 0 { StmtAhead(recv, indent, ss, k); }
      if |ts| > 0 { StmtAhead(recv, indent, ts, k'); }
    } else {
      var s, t := ss[0], ts[0];
      var r, r' := Text(recv, indent, ss[1..]) + k, Text(recv, indent, ts[1..]) + k';
      Assoc(StmtText(recv, indent, s), Text(recv, indent, ss[1..]), k);
      Assoc(StmtText(recv, indent, t), Text(recv, indent, ts[1..]), k');
      StmtUnique(recv, indent, s, r, t, r');
      TextUnique(recv, indent, ss[1..], k, ts[1..], k');
    }
  }

  lemma StmtAhead(recv: string, indent: string, ss: seq<Stmt>, k: string)
    requires |ss| > 0 && |indent| > 0
    ensures |Text(recv, indent, ss)| >= |indent|
    ensures (Text(recv, indent, ss) + k)[|indent| - 1] == indent[|indent| - 1]
  {
  }

  lemma {:induction false} StmtUnique(recv: string, indent: string, s: Stmt, r: string, t: Stmt, r': string)
    requires IsIdent(recv) && Proper(s) && Proper(t)
    requires |indent| > 0
    requires StmtText(recv, indent, s) + r == StmtText(recv, indent, t) + r'
    ensures Erase(s) == Erase(t) && r == r'
    decreases s
  {
    var head, head' := HeadText(recv, s), HeadText(recv, t);
    var tail, tail' := Tail(recv, indent, s), Tail(recv, indent, t);
    HeadKind(recv, s);
    HeadKind(recv, t);
    TailSplit(recv, indent, s, r);
    TailSplit(recv, indent, t, r');
    SplitLine(indent, head, tail + r, head', tail' + r');
    HeadUnique(recv, s, t);
    if s.IfNonNil? {
      var close := Line(indent, "}");
      Assoc(Text(recv, indent + "\t", s.body), close, r);
      Assoc(Text(recv, indent + "\t", t.body), close, r');
      assert (close + r)[|indent|] == '}' && (close + r')[|indent|] == '}';
      TextUnique(recv, indent + "\t", s.body, close + r, t.body, close + r');
      SplitLine(indent, "}", r, "}", r');
    } else {
      assert tail == tail';
      assert r == (tail + r)[|tail|..] && r' == (tail' + r')[|tail|..];
    }
  }

  /** The text of a statement after its first line. */
  function Tail(recv: string, indent: string, s: Stmt): string {
    match s
    case IfNonNil(_, body) => Text(recv, indent + "\t", body) + Line(indent, "}")
    case IfResetter(_) => Line(indent + "\t", "r.Reset()") + Line(indent, "}")
    case _ => ""
  }

  lemma TailSplit(recv: string, indent: string, s: Stmt, r: string)
    ensures StmtText(recv, indent, s) + r == Line(indent, HeadText(recv, s)) + (Tail(recv, indent, s) + r)
  {
  }

  // The statements the generator emits.

  predicate ProperNames(t: GoType) {
    match t
    case Pointer(elem) => ProperNames(elem)
    case Struct(fields) => forall f :: f in fields ==> IsIdent(f.name) && ProperNames(f.typ)
    case _ => true
  }

  /** Field names are Go identifiers. */
  predicate ProperEnv(env: Env) {
    forall n :: n in env.decls ==> ProperNames(env.decls[n].underlying)
  }

  lemma GuardProper(p: Path, body: seq<Stmt>)
    requires ProperPath(p) && AllProper(body)
    ensures AllProper([IfNonNil(p, body)])
  {
  }

  lemma {:induction false} EmitProper(env: Env, fuel: nat, p: Path, t: GoType)
    requires ProperEnv(env) && ProperNames(t) && ProperPath(p)
    requires Emit(env, fuel, p, t).Some?
    ensures AllProper(Emit(env, fuel, p, t).value)
    decreases fuel, t, 1
  {
    match t
    case Pointer(elem) =>
      if !HasOrWillHaveReset(env, t) {
        EmitProper(env, fuel, Deref(p), elem);
        GuardProper(p, Emit(env, fuel, Deref(p), elem).value);
      } else {
        GuardProper(p, [CallReset(p, t)]);
      }
    case Named(n) => if !HasOrWillHaveReset(env, t) { EmitProper(env, fuel - 1, p, Underlying(env, n)); }
    case Struct(fields) => EmitStructProper(env, fuel, p, fields);
    case _ =>
  }

  lemma {:induction false} EmitStructProper(env: Env, fuel: nat, p: Path, fields: seq<Field>)
    requires ProperEnv(env) && ProperPath(p) && forall f :: f in fields ==> IsIdent(f.name) && ProperNames(f.typ)
    requires EmitStruct(env, fuel, p, fields).Some?
    ensures AllProper(EmitStruct(env, fuel, p, fields).value)
    decreases fuel, fields, 0
  {
    if |fields| > 0 {
      var last := |fields| - 1;
      EmitStructProper(env, fuel, p, fields[..last]);
      EmitProper(env, fuel, Sel(p, fields[last].name), fields[last].typ);
    }
  }

  /** The text generated for a marked struct determines its reset statements, whatever types surround it. */
  lemma MethodTextUnique(env: Env, env': Env, t: Target)
    requires ProperEnv(env) && ProperEnv(env') && IsIdent(ReceiverName(t.name))
    requires MethodText(env, t).Some? && MethodText(env, t) == MethodText(env', t)
    ensures EraseAll(MethodBody(env, t.qual).value) == EraseAll(MethodBody(env', t.qual).value)
  {
    var recv := ReceiverName(t.name);
    var body, body' := MethodBody(env, t.qual).value, MethodBody(env', t.qual).value;
    EmitStructProper(env, |env.decls| + 1, Recv, Underlying(env, t.qual).fields);
    EmitStructProper(env', |env'.decls| + 1, Recv, Underlying(env', t.qual).fields);
    var x, y, h := Text(recv, "\t", body) + "}\n", Text(recv, "\t", body') + "}\n", MethodHeader(recv, t.name);
    assert (h + x)[|h|..] == x && (h + y)[|h|..] == y;
    TextUnique(recv, "\t", body, "}\n", body', "}\n");
  }
}
