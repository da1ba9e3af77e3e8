/**
 A reader of generated Go: from the text of a file to the methods and statements it holds, written from the forms that
 the field table of `cmd/reset` lists. The texts the generator writes are proved to read back to what it emitted.
 */
module ResetReader {
  import opened Wrappers
  import opened GoTypes
  import opened ResetGen
  import opened ResetText
  import opened ResetTextUnique
  import ResetRerun

  // Lines.

  /** Where the first line of `s` ends. */
  function LineEnd(s: string): (i: nat)
    ensures i <= |s| && '\n' !in s[..i]
    ensures i < |s| ==> s[i] == '\n'
  {
    if |s| == 0 || s[0] == '\n' then 0
    else
      var i := 1 + LineEnd(s[1..]);
      assert s[..i] == [s[0]] + s[1..][..i - 1];
      i
  }

  function Unindented(line: string): string {
    if |line| > 0 && line[0] == '\t' then Unindented(line[1..]) else line
  }

  /** The lines of a text, without their indentation. */
  function Lines(s: string): seq<string>
    decreases |s|
  {
    if |s| == 0 then []
    else
      var i := LineEnd(s);
      [Unindented(s[..i])] + if i < |s| then Lines(s[i + 1..]) else []
  }

  predicate AllTabs(s: string) {
    forall i :: 0 <= i < |s| ==> s[i] == '\t'
  }

  /** One line of text, which has no line break and does not itself start with a tab. */
  predicate IsLine(s: string) {
    '\n' !in s && (|s| > 0 ==> s[0] != '\t')
  }

  lemma LineEndAt(s: string, i: nat)
    requires i < |s| && s[i] == '\n' && '\n' !in s[..i]
    ensures LineEnd(s) == i
  {
    var j := LineEnd(s);
    assert forall k :: 0 <= k < i ==> s[..i][k] == s[k];
    assert forall k :: 0 <= k < j ==> s[..j][k] == s[k];
  }

  lemma {:induction false} UnindentedLine(indent: string, s: string)
    requires AllTabs(indent) && IsLine(s)
    ensures Unindented(indent + s) == s
    decreases |indent|
  {
    if |indent| == 0 {
      assert indent + s == s;
    } else {
      assert (indent + s)[1..] == indent[1..] + s;
      UnindentedLine(indent[1..], s);
    }
  }

  lemma LinesCons(indent: string, s: string, rest: string)
    requires AllTabs(indent) && IsLine(s)
    ensures Lines(Line(indent, s) + rest) == [s] + Lines(rest)
  {
    var all, i := Line(indent, s) + rest, |indent| + |s|;
    assert all[..i] == indent + s && all[i] == '\n' && all[i + 1..] == rest;
    LineEndAt(all, i);
    UnindentedLine(indent, s);
  }

  // Access expressions.

  /** Where the last dot of `x` is, or `|x|` when there is none. */
  function LastDot(x: string): (i: nat)
    ensures i <= |x| && if i < |x| then x[i] == '.' else '.' !in x
    ensures forall j :: i < j < |x| ==> x[j] != '.'
  {
    if '.' !in x then |x|
    else if x[|x| - 1] == '.' then |x| - 1
    else LastDot(x[..|x| - 1])
  }

  /** `recv`, `p.f` or `(*p)`. */
  function ReadPath(recv: string, x: string): Option<Path>
    decreases |x|
  {
    if x == recv then Some(Recv)
    else if |x| >= 3 && x[..2] == "(*" && x[|x| - 1] == ')' then
      var base := ReadPath(recv, x[2..|x| - 1]);
      if base.None? then None else Some(Deref(base.value))
    else
      var i := LastDot(x);
      if i == |x| || !IsIdent(x[i + 1..]) then None
      else
        var base := ReadPath(recv, x[..i]);
        if base.None? then None else Some(Sel(base.value, x[i + 1..]))
  }

  lemma DotInside(a: string, f: string)
    requires IsIdent(f)
    ensures var x := a + "." + f; x[|a|] == '.' && forall j :: |a| < j < |x| ==> x[j] != '.'
  {
    var x := a + "." + f;
    assert forall j :: |a| < j < |x| ==> x[j] == f[j - |a| - 1];
  }

  lemma OneLastDot(x: string, i: nat, k: nat)
    requires k < |x| && x[k] == '.' && forall j :: k < j < |x| ==> x[j] != '.'
    requires i <= |x| && (if i < |x| then x[i] == '.' else '.' !in x) && forall j :: i < j < |x| ==> x[j] != '.'
    ensures i == k
  {
  }

  lemma LastDotAt(a: string, f: string)
    requires IsIdent(f)
    ensures LastDot(a + "." + f) == |a|
  {
    DotInside(a, f);
    OneLastDot(a + "." + f, LastDot(a + "." + f), |a|);
  }

  lemma {:induction false} PathReads(recv: string, p: Path)
    requires IsIdent(recv) && ProperPath(p)
    ensures ReadPath(recv, PathText(recv, p)) == Some(p)
  {
    match p
    case Recv =>
    case Sel(base, f) =>
      PathReads(recv, base);
      SelReads(recv, PathText(recv, base), f);
    case Deref(base) =>
      PathReads(recv, base);
      DerefReads(recv, PathText(recv, base));
  }

  lemma SelReads(recv: string, x: string, f: string)
    requires IsIdent(recv) && IsIdent(f) && ReadPath(recv, x).Some?
    ensures ReadPath(recv, x + "." + f) == Some(Sel(ReadPath(recv, x).value, f))
  {
    var y := x + "." + f;
    LastDotAt(x, f);
    assert y[|x|] == '.' && y[|y| - 1] == f[|f| - 1];
    assert y[..|x|] == x && y[|x| + 1..] == f;
  }

  lemma DerefReads(recv: string, x: string)
    requires IsIdent(recv) && ReadPath(recv, x).Some?
    ensures ReadPath(recv, "(*" + x + ")") == Some(Deref(ReadPath(recv, x).value))
  {
    var y := "(*" + x + ")";
    assert y[0] == '(' && y[..2] == "(*" && y[2..|y| - 1] == x;
  }

  // Statements.

  /** What `line` has between `pre` and `post`. */
  function Between(pre: string, line: string, post: string): Option<string> {
    if |line| >= |pre| + |post| && line[..|pre|] == pre && line[|line| - |post|..] == post then
      Some(line[|pre|..|line| - |post|])
    else None
  }

  /** What a line starts: a whole statement, a guarded block, or a call behind a type assertion. */
  datatype Head = Whole(s: Stmt) | Guard(p: Path) | Assertion(p: Path)

  /** `x` of the text `x = x`. */
  function Twice(m: string): Option<string> {
    if |m| < 3 then None
    else
      var n := (|m| - 3) / 2;
      if m == m[..n] + " = " + m[..n] then Some(m[..n]) else None
  }

  /** The forms of a line in the table, each with one access expression. */
  datatype Form = ToFalse | ToEmpty | ToZero | Resliced | Called | Cleared | Guarded | Asserted

  datatype Reading = Reading(form: Form, x: string)

  /** Which of the forms a line has, recognised by the whole line. */
  function ReadForm(line: string): Option<Reading> {
    if Between("", line, " = false").Some? then Some(Reading(ToFalse, Between("", line, " = false").value))
    else if Between("", line, " = \"\"").Some? then Some(Reading(ToEmpty, Between("", line, " = \"\"").value))
    else if Between("", line, " = 0").Some? then Some(Reading(ToZero, Between("", line, " = 0").value))
    else if Between("", line, "[:0]").Some? then
      var x := Twice(Between("", line, "[:0]").value);
      if x.None? then None else Some(Reading(Resliced, x.value))
    else if Between("", line, ".Reset()").Some? then Some(Reading(Called, Between("", line, ".Reset()").value))
    else if Between("clear(", line, ")").Some? then Some(Reading(Cleared, Between("clear(", line, ")").value))
    else if Between("if ", line, " != nil {").Some? then Some(Reading(Guarded, Between("if ", line, " != nil {").value))
    else
      var x := Between("if r, ok := ", line, ".(interface{ Reset() }); ok {");
      if x.None? then None else Some(Reading(Asserted, x.value))
  }

  /** What a form starts. The static type of a call is not written. */
  function Started(form: Form, p: Path): Head {
    match form
    case ToFalse => Whole(SetFalse(p))
    case ToEmpty => Whole(SetEmpty(p))
    case ToZero => Whole(SetZero(p))
    case Resliced => Whole(Truncate(p))
    case Called => Whole(CallReset(p, Untouched))
    case Cleared => Whole(Clear(p))
    case Guarded => Guard(p)
    case Asserted => Assertion(p)
  }

  function ReadHead(recv: string, line: string): Option<Head> {
    var r := ReadForm(line);
    if r.None? then None
    else
      var p := ReadPath(recv, r.value.x);
      if p.None? then None else Some(Started(r.value.form, p.value))
  }

  function HeadOf(s: Stmt): Head {
    match s
    case IfNonNil(p, _) => Guard(p)
    case IfResetter(p) => Assertion(p)
    case _ => Whole(Erase(s))
  }

  lemma BetweenOf(pre: string, x: string, post: string)
    ensures Between(pre, pre + x + post, post) == Some(x)
  {
    var line := pre + x + post;
    assert line[..|pre|] == pre && line[|line| - |post|..] == post && line[|pre|..|line| - |post|] == x;
  }

  /** A line that differs from `post` in the character `j` before the end does not end with it. */
  lemma NotEnding(pre: string, line: string, post: string, j: nat)
    requires j < |post| && j < |line| && line[|line| - 1 - j] != post[|post| - 1 - j]
    ensures Between(pre, line, post) == None
  {
    if |line| >= |post| { assert line[|line| - |post|..][|post| - 1 - j] == line[|line| - 1 - j]; }
  }

  lemma AssignmentForm(x: string)
    ensures ReadForm(x + " = false") == Some(Reading(ToFalse, x))
    ensures ReadForm(x + " = \"\"") == Some(Reading(ToEmpty, x))
    ensures ReadForm(x + " = 0") == Some(Reading(ToZero, x))
  {
    assert "" + x == x;
    BetweenOf("", x, " = false");
    BetweenOf("", x, " = \"\"");
    BetweenOf("", x, " = 0");
    NotEnding("", x + " = \"\"", " = false", 0);
    NotEnding("", x + " = 0", " = false", 0);
    NotEnding("", x + " = 0", " = \"\"", 0);
  }

  lemma NotAssigned(line: string)
    requires |line| > 0 && line[|line| - 1] in {']', ')', '{'}
    ensures Between("", line, " = false").None? && Between("", line, " = \"\"").None? && Between("", line, " = 0").None?
  {
    NotEnding("", line, " = false", 0);
    NotEnding("", line, " = \"\"", 0);
    NotEnding("", line, " = 0", 0);
  }

  lemma TwiceOf(x: string)
    ensures Twice(x + " = " + x) == Some(x)
  {
    var m := x + " = " + x;
    assert (|m| - 3) / 2 == |x| && m[..|x|] == x;
  }

  lemma ReslicedForm(x: string)
    ensures ReadForm(x + " = " + x + "[:0]") == Some(Reading(Resliced, x))
  {
    var m := x + " = " + x;
    assert "" + m == m;
    NotAssigned(m + "[:0]");
    BetweenOf("", m, "[:0]");
    TwiceOf(x);
  }

  lemma CalledForm(x: string)
    ensures ReadForm(x + ".Reset()") == Some(Reading(Called, x))
  {
    assert "" + x == x;
    NotAssigned(x + ".Reset()");
    NotEnding("", x + ".Reset()", "[:0]", 0);
    BetweenOf("", x, ".Reset()");
  }

  lemma ClearedForm(x: string)
    requires |x| > 0 && x[|x| - 1] != '('
    ensures ReadForm("clear(" + x + ")") == Some(Reading(Cleared, x))
  {
    var line := "clear(" + x + ")";
    NotAssigned(line);
    NotEnding("", line, "[:0]", 0);
    NotEnding("", line, ".Reset()", 1);
    BetweenOf("clear(", x, ")");
  }

  lemma NotStatement(line: string)
    requires |line| > 0 && line[|line| - 1] == '{'
    ensures Between("", line, "[:0]").None? && Between("", line, ".Reset()").None? && Between("clear(", line, ")").None?
  {
    NotEnding("", line, "[:0]", 0);
    NotEnding("", line, ".Reset()", 0);
    NotEnding("clear(", line, ")", 0);
  }

  lemma GuardedForm(x: string)
    ensures ReadForm("if " + x + " != nil {") == Some(Reading(Guarded, x))
  {
    var line := "if " + x + " != nil {";
    NotAssigned(line);
    NotStatement(line);
    BetweenOf("if ", x, " != nil {");
  }

  lemma AssertedForm(x: string)
    ensures ReadForm("if r, ok := " + x + ".(interface{ Reset() }); ok {") == Some(Reading(Asserted, x))
  {
    var line := "if r, ok := " + x + ".(interface{ Reset() }); ok {";
    assert line[|line| - 1] == '{' && line[|line| - 3] == 'k';
    NotAssigned(line);
    NotStatement(line);
    NotEnding("if ", line, " != nil {", 2);
    BetweenOf("if r, ok := ", x, ".(interface{ Reset() }); ok {");
  }

  function FormOf(s: Stmt): Form {
    match s
    case SetFalse(_) => ToFalse
    case SetEmpty(_) => ToEmpty
    case SetZero(_) => ToZero
    case Truncate(_) => Resliced
    case CallReset(_, _) => Called
    case Clear(_) => Cleared
    case IfNonNil(_, _) => Guarded
    case IfResetter(_) => Asserted
  }

  lemma HeadForm(recv: string, s: Stmt)
    requires PathText(recv, s.p) != "" && PathText(recv, s.p)[|PathText(recv, s.p)| - 1] != '('
    ensures ReadForm(HeadText(recv, s)) == Some(Reading(FormOf(s), PathText(recv, s.p)))
  {
    var x := PathText(recv, s.p);
    match s
    case SetFalse(_) => AssignmentForm(x);
    case SetEmpty(_) => AssignmentForm(x);
    case SetZero(_) => AssignmentForm(x);
    case Truncate(_) => ReslicedForm(x);
    case CallReset(_, _) => CalledForm(x);
    case Clear(_) => ClearedForm(x);
    case IfNonNil(_, _) => GuardedForm(x);
    case IfResetter(_) => AssertedForm(x);
  }

  lemma FormReads(recv: string, line: string, form: Form, x: string, p: Path)
    requires ReadForm(line) == Some(Reading(form, x)) && ReadPath(recv, x) == Some(p)
    ensures ReadHead(recv, line) == Some(Started(form, p))
  {
  }

  lemma StartedIsHead(s: Stmt)
    ensures Started(FormOf(s), s.p) == HeadOf(s)
  {
  }

  /** The first line of every statement reads back to its kind and its path. */
  lemma HeadReads(recv: string, s: Stmt)
    requires IsIdent(recv) && ProperPath(s.p)
    ensures ReadHead(recv, HeadText(recv, s)) == Some(HeadOf(s))
  {
    PathReads(recv, s.p);
    PathChars(recv, s.p);
    HeadForm(recv, s);
    FormReads(recv, HeadText(recv, s), FormOf(s), PathText(recv, s.p), s.p);
    StartedIsHead(s);
  }

  // Blocks.

  datatype Block = Block(body: seq<Stmt>, rest: seq<string>)

  /** The statements up to the brace that closes their block, or the end. */
  function ReadBlock(recv: string, lines: seq<string>): (b: Option<Block>)
    ensures b.Some? ==> |b.value.rest| <= |lines|
    decreases |lines|
  {
    if |lines| == 0 || lines[0] == "}" then Some(Block([], lines))
    else
      match ReadHead(recv, lines[0])
      case None => None
      case Some(Whole(s)) => Prepended(s, ReadBlock(recv, lines[1..]))
      case Some(Guard(p)) =>
        var inner := ReadBlock(recv, lines[1..]);
        if inner.None? || |inner.value.rest| == 0 then None
        else Prepended(IfNonNil(p, inner.value.body), ReadBlock(recv, inner.value.rest[1..]))
      case Some(Assertion(p)) =>
        if |lines| < 3 || lines[1] != "r.Reset()" || lines[2] != "}" then None
        else Prepended(IfResetter(p), ReadBlock(recv, lines[3..]))
  }

  function Prepended(s: Stmt, b: Option<Block>): Option<Block> {
    if b.None? then None else Some(Block([s] + b.value.body, b.value.rest))
  }

  /** A block ends here. */
  predicate Ends(k: string) {
    |Lines(k)| == 0 || Lines(k)[0] == "}"
  }

  lemma {:induction false} PathStart(recv: string, p: Path)
    requires IsIdent(recv) && ProperPath(p)
    ensures var x := PathText(recv, p); |x| > 0 && (IsIdentChar(x[0]) || x[0] == '(')
  {
    match p
    case Recv =>
    case Sel(base, f) => PathStart(recv, base);
    case Deref(base) =>
  }

  lemma HeadIsLine(recv: string, s: Stmt)
    requires IsIdent(recv) && ProperPath(s.p)
    ensures IsLine(HeadText(recv, s)) && HeadText(recv, s) != "}"
  {
    HeadKind(recv, s);
    PathStart(recv, s.p);
    var line := HeadText(recv, s);
    assert line[0] == if s.Clear? then 'c' else if s.IfNonNil? || s.IfResetter? then 'i' else PathText(recv, s.p)[0];
  }

  lemma ClosingLine(indent: string, r: string)
    requires AllTabs(indent)
    ensures Lines(Line(indent, "}") + r) == ["}"] + Lines(r) && Ends(Line(indent, "}") + r)
  {
    LinesCons(indent, "}", r);
  }

  lemma WholeReads(recv: string, line: string, s: Stmt, lines: seq<string>, b: Block)
    requires line != "}" && ReadHead(recv, line) == Some(Whole(s)) && ReadBlock(recv, lines) == Some(b)
    ensures ReadBlock(recv, [line] + lines) == Some(Block([s] + b.body, b.rest))
  {
    assert ([line] + lines)[1..] == lines;
  }

  lemma GuardedReads(recv: string, line: string, p: Path, lines: seq<string>, body: seq<Stmt>, rest: seq<string>,
      b: Block)
    requires line != "}" && ReadHead(recv, line) == Some(Guard(p))
    requires ReadBlock(recv, lines) == Some(Block(body, ["}"] + rest)) && ReadBlock(recv, rest) == Some(b)
    ensures ReadBlock(recv, [line] + lines) == Some(Block([IfNonNil(p, body)] + b.body, b.rest))
  {
    assert ([line] + lines)[1..] == lines && (["}"] + rest)[1..] == rest;
  }

  lemma AssertedReads(recv: string, line: string, p: Path, rest: seq<string>, b: Block)
    requires line != "}" && ReadHead(recv, line) == Some(Assertion(p)) && ReadBlock(recv, rest) == Some(b)
    ensures ReadBlock(recv, [line] + (["r.Reset()"] + (["}"] + rest))) == Some(Block([IfResetter(p)] + b.body, b.rest))
  {
    FourParts(line, "r.Reset()", "}", rest);
  }

  lemma FourParts(a: string, b: string, c: string, rest: seq<string>)
    ensures var all := [a] + ([b] + ([c] + rest));
      |all| >= 3 && all[0] == a && all[1] == b && all[2] == c && all[3..] == rest
  {
  }

  /** A statement in front of other text reads back, and the text after it is read on. */
  lemma {:induction false} StmtReads(recv: string, indent: string, s: Stmt, r: string, b: Block)
    requires IsIdent(recv) && Proper(s) && AllTabs(indent) && ReadBlock(recv, Lines(r)) == Some(b)
    ensures ReadBlock(recv, Lines(StmtText(recv, indent, s) + r)) == Some(Block([Erase(s)] + b.body, b.rest))
    decreases s, 1
  {
    var head, tail := HeadText(recv, s), Tail(recv, indent, s);
    HeadIsLine(recv, s);
    HeadReads(recv, s);
    TailSplit(recv, indent, s, r);
    LinesCons(indent, head, tail + r);
    match s
    case IfNonNil(p, body) => GuardBodyReads(recv, indent, p, body, r, b);
    case IfResetter(p) =>
      Assoc(Line(indent + "\t", "r.Reset()"), Line(indent, "}"), r);
      LinesCons(indent + "\t", "r.Reset()", Line(indent, "}") + r);
      ClosingLine(indent, r);
      AssertedReads(recv, head, p, Lines(r), b);
    case _ =>
      assert tail + r == r;
      WholeReads(recv, head, Erase(s), Lines(r), b);
  }

  lemma {:induction false} GuardBodyReads(recv: string, indent: string, p: Path, body: seq<Stmt>, r: string, b: Block)
    requires IsIdent(recv) && Proper(IfNonNil(p, body)) && AllTabs(indent) && ReadBlock(recv, Lines(r)) == Some(b)
    ensures var s := IfNonNil(p, body);
      ReadBlock(recv, [HeadText(recv, s)] + Lines(Tail(recv, indent, s) + r)) ==
        Some(Block([Erase(s)] + b.body, b.rest))
    decreases IfNonNil(p, body), 0
  {
    var s, close := IfNonNil(p, body), Line(indent, "}") + r;
    HeadIsLine(recv, s);
    HeadReads(recv, s);
    ClosingLine(indent, r);
    BlockReads(recv, indent + "\t", body, close);
    Assoc(Text(recv, indent + "\t", body), Line(indent, "}"), r);
    GuardedReads(recv, HeadText(recv, s), p, Lines(Tail(recv, indent, s) + r), EraseAll(body), Lines(r), b);
  }

  /** The text of a block reads back to its statements, up to the types that are not written. */
  lemma {:induction false} BlockReads(recv: string, indent: string, ss: seq<Stmt>, k: string)
    requires IsIdent(recv) && AllProper(ss) && AllTabs(indent) && Ends(k)
    ensures ReadBlock(recv, Lines(Text(recv, indent, ss) + k)) == Some(Block(EraseAll(ss), Lines(k)))
    decreases ss
  {
    if |ss| == 0 {
      assert "" + k == k;
    } else {
      var r := Text(recv, indent, ss[1..]) + k;
      BlockReads(recv, indent, ss[1..], k);
      Assoc(StmtText(recv, indent, ss[0]), Text(recv, indent, ss[1..]), k);
      StmtReads(recv, indent, ss[0], r, Block(EraseAll(ss[1..]), Lines(k)));
    }
  }

  // Methods and files.

  /** `func (recv *name) Reset()`, returning on a nil receiver and otherwise running `body`. */
  datatype Method = Method(recv: string, name: string, body: seq<Stmt>)

  /** The receiver and the type of a method `Reset` with a pointer receiver. */
  function ReadSignature(line: string): Option<(string, string)> {
    var m := Between("func (", line, ") Reset() {");
    if m.None? then None
    else
      var i := FirstBlank(m.value);
      if i + 2 > |m.value| || m.value[i..i + 2] != " *" then None
      else if !IsIdent(m.value[..i]) || !IsIdent(m.value[i + 2..]) then None
      else Some((m.value[..i], m.value[i + 2..]))
  }

  function FirstBlank(s: string): (i: nat)
    ensures i <= |s| && (i < |s| ==> s[i] == ' ') && forall j :: 0 <= j < i ==> s[j] != ' '
  {
    if |s| == 0 || s[0] == ' ' then 0 else 1 + FirstBlank(s[1..])
  }

  /** A blank line, a comment, the signature, the nil check and the body. */
  function ReadMethod(lines: seq<string>): (r: Option<(Method, seq<string>)>)
    ensures r.Some? ==> |r.value.1| < |lines|
  {
    if |lines| < 6 || lines[0] != "" || !("//" <= lines[1]) then None
    else
      var signature := ReadSignature(lines[2]);
      if signature.None? then None
      else
        var (recv, name) := signature.value;
        if lines[3] != "if " + recv + " == nil {" || lines[4] != "return" || lines[5] != "}" then None
        else
          var b := ReadBlock(recv, lines[6..]);
          if b.None? || |b.value.rest| == 0 then None
          else Some((Method(recv, name, b.value.body), b.value.rest[1..]))
  }

  function ReadMethods(lines: seq<string>): Option<seq<Method>>
    decreases |lines|
  {
    if |lines| == 0 then Some([])
    else
      var first := ReadMethod(lines);
      if first.None? then None
      else
        var rest := ReadMethods(first.value.1);
        if rest.None? then None else Some([first.value.0] + rest.value)
  }

  /** The comment by which Go tools know generated code. */
  predicate MarksGenerated(line: string) {
    Between("// Code generated ", line, " DO NOT EDIT.").Some?
  }

  /** The package name and the methods of a generated file. */
  function ReadFile(src: string): Option<(string, seq<Method>)> {
    var lines := Lines(src);
    if |lines| < 3 || !MarksGenerated(lines[0]) || lines[1] != "" || !("package " <= lines[2]) then None
    else
      var methods := ReadMethods(lines[3..]);
      if methods.None? then None else Some((lines[2][|"package "|..], methods.value))
  }

  lemma FirstBlankAt(a: string, b: string)
    requires ' ' !in a
    ensures FirstBlank(a + " *" + b) == |a|
  {
    var x := a + " *" + b;
    assert x[|a|] == ' ' && forall j :: 0 <= j < |a| ==> x[j] == a[j];
  }

  lemma SignatureReads(recv: string, n: string)
    requires IsIdent(recv) && IsIdent(n)
    ensures ReadSignature("func (" + recv + " *" + n + ") Reset() {") == Some((recv, n))
  {
    var m := recv + " *" + n;
    assert "func (" + m + ") Reset() {" == "func (" + recv + " *" + n + ") Reset() {";
    BetweenOf("func (", m, ") Reset() {");
    FirstBlankAt(recv, n);
    assert m[..|recv|] == recv && m[|recv|..|recv| + 2] == " *" && m[|recv| + 2..] == n;
  }

  function Comment(n: string): string {
    "// Reset сбрасывает поля " + n + " к нулевым значениям."
  }

  /** The lines in front of the body. */
  function HeaderLines(recv: string, n: string): seq<string> {
    ["", Comment(n), "func (" + recv + " *" + n + ") Reset() {", "if " + recv + " == nil {", "return", "}"]
  }

  lemma TwoLines(i: string, a: string, j: string, b: string, rest: string)
    requires AllTabs(i) && AllTabs(j) && IsLine(a) && IsLine(b)
    ensures Lines(Line(i, a) + Line(j, b) + rest) == [a] + [b] + Lines(rest)
  {
    Assoc(Line(i, a), Line(j, b), rest);
    LinesCons(j, b, rest);
    LinesCons(i, a, Line(j, b) + rest);
    Joined([a], [b], Lines(rest));
  }

  lemma Joined(a: seq<string>, b: seq<string>, rest: seq<string>)
    ensures a + (b + rest) == (a + b) + rest
  {
  }

  lemma ThreeLines(i: string, a: string, j: string, b: string, k: string, c: string, rest: string)
    requires AllTabs(i) && AllTabs(j) && AllTabs(k) && IsLine(a) && IsLine(b) && IsLine(c)
    ensures Lines(Line(i, a) + Line(j, b) + Line(k, c) + rest) == [a] + [b] + [c] + Lines(rest)
  {
    Assoc(Line(i, a) + Line(j, b), Line(k, c), rest);
    LinesCons(k, c, rest);
    TwoLines(i, a, j, b, Line(k, c) + rest);
    Joined([a] + [b], [c], Lines(rest));
  }

  lemma CommentReads(n: string, rest: string)
    requires IsIdent(n)
    ensures Lines(CommentText(n) + rest) == ["", Comment(n)] + Lines(rest)
  {
    CommentIsLine(n);
    TwoLines("", "", "", Comment(n), rest);
    TwoJoined("", Comment(n));
  }

  lemma CommentIsLine(n: string)
    requires IsIdent(n)
    ensures IsLine(Comment(n))
  {
    assert Comment(n)[0] == '/';
  }

  lemma TwoJoined(a: string, b: string)
    ensures [a] + [b] == [a, b]
  {
  }

  lemma NilCheckReads(recv: string, rest: string)
    requires IsIdent(recv)
    ensures Lines(NilCheckText(recv) + rest) == ["if " + recv + " == nil {", "return", "}"] + Lines(rest)
  {
    ThreeLines("\t", "if " + recv + " == nil {", "\t\t", "return", "\t", "}", rest);
    ThreeJoined("if " + recv + " == nil {", "return", "}");
  }

  lemma SignatureLine(recv: string, n: string, rest: string)
    requires IsIdent(recv) && IsIdent(n)
    ensures Lines(SignatureText(recv, n) + rest) == ["func (" + recv + " *" + n + ") Reset() {"] + Lines(rest)
  {
    LinesCons("", "func (" + recv + " *" + n + ") Reset() {", rest);
  }

  lemma HeaderReads(recv: string, n: string, rest: string)
    requires IsIdent(recv) && IsIdent(n)
    ensures Lines(MethodHeader(recv, n) + rest) == HeaderLines(recv, n) + Lines(rest)
  {
    var check := NilCheckText(recv) + rest;
    Assoc(CommentText(n) + SignatureText(recv, n), NilCheckText(recv), rest);
    Assoc(CommentText(n), SignatureText(recv, n), check);
    NilCheckReads(recv, rest);
    SignatureLine(recv, n, check);
    CommentReads(n, SignatureText(recv, n) + check);
    SixLines("", Comment(n), "func (" + recv + " *" + n + ") Reset() {", "if " + recv + " == nil {", "return", "}",
      Lines(rest));
  }

  lemma SixLines(a: string, b: string, c: string, d: string, e: string, f: string, rest: seq<string>)
    ensures [a, b] + ([c] + ([d, e, f] + rest)) == [a, b, c, d, e, f] + rest
  {
  }

  /** The method that the text generated for `t` declares. */
  function MethodOf(env: Env, t: Target): Method
    requires MethodBody(env, t.qual).Some?
  {
    Method(ReceiverName(t.name), t.name, EraseAll(MethodBody(env, t.qual).value))
  }

  lemma LinesRead(recv: string, n: string, lines: seq<string>, body: seq<Stmt>, rest: seq<string>)
    requires IsIdent(recv) && IsIdent(n) && ReadBlock(recv, lines) == Some(Block(body, ["}"] + rest))
    ensures ReadMethod(HeaderLines(recv, n) + lines) == Some((Method(recv, n, body), rest))
  {
    SignatureReads(recv, n);
    var all := HeaderLines(recv, n) + lines;
    assert all[6..] == lines && (["}"] + rest)[1..] == rest;
    assert "//" <= Comment(n);
  }

  /** The text of a method reads back to its receiver, its type and its statements. */
  lemma MethodReads(env: Env, t: Target, rest: string)
    requires ProperEnv(env) && IsIdent(t.name) && IsIdent(ReceiverName(t.name)) && MethodText(env, t).Some?
    ensures MethodBody(env, t.qual).Some?
    ensures ReadMethod(Lines(MethodText(env, t).value + rest)) == Some((MethodOf(env, t), Lines(rest)))
  {
    var recv, body := ReceiverName(t.name), MethodBody(env, t.qual).value;
    EmitStructProper(env, |env.decls| + 1, Recv, Underlying(env, t.qual).fields);
    var text, close := Text(recv, "\t", body), Line("", "}") + rest;
    assert Line("", "}") == "}\n";
    Assoc(MethodHeader(recv, t.name), text + "}\n", rest);
    Assoc(text, "}\n", rest);
    HeaderReads(recv, t.name, text + close);
    ClosingLine("", rest);
    BlockReads(recv, "\t", body, close);
    LinesRead(recv, t.name, Lines(text + close), EraseAll(body), Lines(rest));
  }

  /** The names that are printed are Go identifiers, and the generator stops. */
  predicate Printable(env: Env, ts: seq<Target>) {
    ProperEnv(env) && MethodsText(env, ts).Some?
    && forall t :: t in ts ==> IsIdent(t.name) && IsIdent(ReceiverName(t.name)) && MethodBody(env, t.qual).Some?
  }

  function MethodsOf(env: Env, ts: seq<Target>): seq<Method>
    requires forall t :: t in ts ==> MethodBody(env, t.qual).Some?
  {
    seq(|ts|, i requires 0 <= i < |ts| => MethodOf(env, ts[i]))
  }

  lemma FirstMethodReads(lines: seq<string>, m: Method, rest: seq<string>, ms: seq<Method>)
    requires ReadMethod(lines) == Some((m, rest)) && ReadMethods(rest) == Some(ms)
    ensures ReadMethods(lines) == Some([m] + ms)
  {
  }

  lemma {:induction false} MethodsRead(env: Env, ts: seq<Target>)
    requires Printable(env, ts)
    ensures ReadMethods(Lines(MethodsText(env, ts).value)) == Some(MethodsOf(env, ts))
    decreases |ts|
  {
    if |ts| > 0 {
      var more := ts[1..];
      MethodsSplit(env, ts);
      MethodsRead(env, more);
      MethodReads(env, ts[0], MethodsText(env, more).value);
      FirstMethodReads(Lines(MethodsText(env, ts).value), MethodOf(env, ts[0]), Lines(MethodsText(env, more).value),
        MethodsOf(env, more));
    } else {
      assert MethodsOf(env, ts) == [];
    }
  }

  lemma MethodsSplit(env: Env, ts: seq<Target>)
    requires Printable(env, ts) && |ts| > 0
    ensures Printable(env, ts[1..]) && MethodText(env, ts[0]).Some?
    ensures MethodsText(env, ts).value == MethodText(env, ts[0]).value + MethodsText(env, ts[1..]).value
    ensures IsIdent(ts[0].name) && IsIdent(ReceiverName(ts[0].name)) && MethodBody(env, ts[0].qual).Some?
    ensures MethodsOf(env, ts) == [MethodOf(env, ts[0])] + MethodsOf(env, ts[1..])
  {
    ResetRerun.MethodsCons(env, ts);
    assert ts[0] in ts && forall t :: t in ts[1..] ==> t in ts;
    MethodsOfSplit(env, ts);
  }

  lemma MethodsOfSplit(env: Env, ts: seq<Target>)
    requires |ts| > 0 && forall t :: t in ts ==> MethodBody(env, t.qual).Some?
    ensures MethodBody(env, ts[0].qual).Some? && forall t :: t in ts[1..] ==> MethodBody(env, t.qual).Some?
    ensures MethodsOf(env, ts) == [MethodOf(env, ts[0])] + MethodsOf(env, ts[1..])
  {
    assert ts[0] in ts && forall t :: t in ts[1..] ==> t in ts;
  }

  lemma FileHead(name: string)
    ensures GENERATED_HEADER + "\n\npackage " + name + "\n" ==
      Line("", GENERATED_HEADER) + Line("", "") + Line("", "package " + name)
  {
    assert "\n\npackage " == "\n" + "\n" + "package ";
  }

  lemma FileLines(name: string, methods: string)
    requires '\n' !in name
    ensures Lines(FileText(name, methods)) == [GENERATED_HEADER, "", "package " + name] + Lines(methods)
  {
    FileHead(name);
    ThreeLines("", GENERATED_HEADER, "", "", "", "package " + name, methods);
    ThreeJoined(GENERATED_HEADER, "", "package " + name);
  }

  lemma ThreeJoined(a: string, b: string, c: string)
    ensures [a] + [b] + [c] == [a, b, c]
  {
  }

  /** The comment in front makes it a generated file, which no later run scans for markers. */
  lemma HeaderMarks()
    ensures MarksGenerated(GENERATED_HEADER)
  {
    BetweenOf("// Code generated ", "by cmd/reset;", " DO NOT EDIT.");
    assert GENERATED_HEADER == "// Code generated " + "by cmd/reset;" + " DO NOT EDIT.";
  }

  lemma LinesOfFile(src: string, name: string, lines: seq<string>, ms: seq<Method>)
    requires Lines(src) == [GENERATED_HEADER, "", "package " + name] + lines && ReadMethods(lines) == Some(ms)
    ensures ReadFile(src) == Some((name, ms))
  {
    HeaderMarks();
    var all, pkg := Lines(src), "package " + name;
    assert all[0] == GENERATED_HEADER && all[1] == "" && all[2] == pkg && all[3..] == lines;
    assert pkg[|"package "|..] == name && "package " <= pkg;
  }

  /** The file the generator writes reads back to the package and to the methods emitted for its targets. */
  lemma FileReads(env: Env, name: string, ts: seq<Target>)
    requires Printable(env, ts) && '\n' !in name
    ensures ReadFile(FileText(name, MethodsText(env, ts).value)) == Some((name, MethodsOf(env, ts)))
  {
    var methods := MethodsText(env, ts).value;
    FileLines(name, methods);
    MethodsRead(env, ts);
    LinesOfFile(FileText(name, methods), name, Lines(methods), MethodsOf(env, ts));
  }
}
