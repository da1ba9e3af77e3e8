/**
 Go's rule for selecting a method, stated on paths through embedded fields ("Selectors" in the Go language
 specification), and the proof that the breadth-first search of `GoTypes` follows it.
 */
module SelectorRule {
  import opened Wrappers
  import opened GoTypes

  // The rule.

  function FieldsOf(env: Env, n: string): seq<Field> {
    match Underlying(env, n)
    case Struct(fields) => fields
    case _ => []
  }

  /** The named type embedded by a field of type `T` or `*T`. */
  function EmbeddedName(f: Field): Option<string> {
    if !f.embedded then None
    else if f.typ.Named? then Some(f.typ.name)
    else if f.typ.Pointer? && f.typ.elem.Named? then Some(f.typ.elem.name)
    else None
  }

  /** The type that a path of field numbers leads to from the named type `n`, if it selects embedded fields only. */
  function End(env: Env, n: string, path: seq<nat>): Option<string> {
    if |path| == 0 then Some(n)
    else
      var before, i := End(env, n, path[..|path| - 1]), path[|path| - 1];
      if before.None? || i >= |FieldsOf(env, before.value)| then None
      else EmbeddedName(FieldsOf(env, before.value)[i])
  }

  /** The selections along the path. */
  function Selections(env: Env, n: string, path: seq<nat>): seq<Hop>
    requires End(env, n, path).Some?
  {
    if |path| == 0 then []
    else
      var m := End(env, n, path[..|path| - 1]).value;
      var f := FieldsOf(env, m)[path[|path| - 1]];
      Selections(env, n, path[..|path| - 1]) + [Hop(f.name, f.typ.Pointer?)]
  }

  /** The type itself has something of the name `Reset`: a method, a field, or a method of its interface. */
  predicate HasReset(env: Env, n: string) {
    n in env.decls &&
    (!env.decls[n].reset.Absent? || HasFieldReset(Underlying(env, n))
     || (Underlying(env, n).Interface? && !Underlying(env, n).reset.Absent?))
  }

  /** What it has is a method `func()`. */
  predicate HasNiladic(env: Env, n: string) {
    n in env.decls &&
    (env.decls[n].reset.Niladic? || (Underlying(env, n).Interface? && Underlying(env, n).reset.Niladic?))
  }

  /** A type has no two fields, and no field and method, of one name, and an interface type no methods of its own. */
  predicate OneReset(env: Env, n: string) {
    |EntryHits(env, Entry(n, false, []))| <= 1
  }

  predicate LeadsTo(env: Env, n: string, path: seq<nat>, m: string) {
    End(env, n, path) == Some(m)
  }

  predicate LeadsToReset(env: Env, n: string, path: seq<nat>) {
    End(env, n, path).Some? && HasReset(env, End(env, n, path).value)
  }

  /** The path leads to a `Reset`, and no other path as short or shorter does. */
  ghost predicate Shallowest(env: Env, n: string, path: seq<nat>) {
    LeadsToReset(env, n, path) && forall q :: |q| <= |path| && q != path ==> !LeadsToReset(env, n, q)
  }

  // What a level of the search stands for.

  /** Entries of the name, those met more than once counted twice. */
  function Weight(level: seq<Entry>, name: string): nat {
    if |level| == 0 then 0
    else (if level[0].name != name then 0 else if level[0].multiples then 2 else 1) + Weight(level[1..], name)
  }

  lemma {:induction false} WeightAppend(a: seq<Entry>, b: seq<Entry>, name: string)
    ensures Weight(a + b, name) == Weight(a, name) + Weight(b, name)
    decreases |a|
  {
    if |a| == 0 {
      assert a + b == b;
    } else {
      assert (a + b)[1..] == a[1..] + b;
      WeightAppend(a[1..], b, name);
    }
  }

  lemma {:induction false} WeightOfNames(level: seq<Entry>, name: string)
    ensures Weight(level, name) >= 1 <==> name in LevelNames(level)
    decreases |level|
  {
    if |level| > 0 {
      WeightOfNames(level[1..], name);
      assert level == [level[0]] + level[1..];
    }
  }

  predicate DistinctEntries(level: seq<Entry>) {
    forall i, j :: 0 <= i < j < |level| ==> level[i].name != level[j].name
  }

  /** The entry stands for the entries of its name in `level`. */
  ghost predicate Merged(level: seq<Entry>, e: Entry) {
    && (e.multiples <==> Weight(level, e.name) >= 2)
    && exists d :: d in level && d.name == e.name && d.hops == e.hops
  }

  lemma MergedMore(d: Entry, level: seq<Entry>, e: Entry)
    requires Merged(level, e) && d.name != e.name
    ensures Merged([d] + level, e)
  {
    assert ([d] + level)[1..] == level;
    var x :| x in level && x.name == e.name && x.hops == e.hops;
    assert x in [d] + level;
  }

  lemma {:induction false} ConsolidateMeans(level: seq<Entry>)
    ensures DistinctEntries(Consolidate(level))
    ensures forall e :: e in Consolidate(level) ==> Merged(level, e)
    decreases |level|
  {
    if |level| > 0 {
      var d, rest := level[0], Consolidate(level[1..]);
      assert level == [d] + level[1..];
      ConsolidateMeans(level[1..]);
      WeightOfNames(level[1..], d.name);
      forall e | e in Consolidate(level) ensures Merged(level, e) {
        if d.name in LevelNames(rest) { MarkedMeans(d, level[1..], rest, e); }
        else if e != d { assert e in rest && e.name in LevelNames(rest); MergedMore(d, level[1..], e); }
      }
      if d.name !in LevelNames(rest) {
        forall i | 0 <= i < |rest| ensures rest[i].name != d.name { assert rest[i].name in LevelNames(rest); }
      }
    }
  }

  lemma MarkedMeans(d: Entry, level: seq<Entry>, rest: seq<Entry>, e: Entry)
    requires (forall x :: x in rest ==> Merged(level, x)) && Weight(level, d.name) >= 1
    requires e in MarkMultiples(rest, d.name)
    ensures Merged([d] + level, e)
  {
    var marked := MarkMultiples(rest, d.name);
    var i :| 0 <= i < |marked| && marked[i] == e;
    assert rest[i] in rest && Merged(level, rest[i]);
    assert ([d] + level)[1..] == level;
    var x :| x in level && x.name == e.name && x.hops == e.hops;
    assert x in [d] + level;
  }

  // The fields of one struct.

  predicate EmbedsAt(fields: seq<Field>, i: nat, name: string) {
    i < |fields| && EmbeddedName(fields[i]) == Some(name)
  }

  lemma EmbeddedEntryIs(f: Field, multiples: bool, hops: seq<Hop>)
    ensures EmbeddedEntries(f, multiples, hops) ==
      if EmbeddedName(f).None? then []
      else [Entry(EmbeddedName(f).value, multiples, hops + [Hop(f.name, f.typ.Pointer?)])]
  {
  }

  function Sum(ws: seq<nat>): nat {
    if |ws| == 0 then 0 else ws[0] + Sum(ws[1..])
  }

  predicate Some1(ws: seq<nat>, i: nat) {
    i < |ws| && ws[i] >= 1
  }

  predicate Some2(ws: seq<nat>, i: nat) {
    i < |ws| && ws[i] >= 2
  }

  lemma SumShift(ws: seq<nat>)
    requires |ws| > 0
    ensures forall i: nat :: Some1(ws[1..], i) <==> Some1(ws, i + 1)
    ensures forall i: nat :: Some2(ws[1..], i) <==> Some2(ws, i + 1)
  {
  }

  /** A sum of numbers is positive when one of them is, and at least two when one is or two of them are positive. */
  lemma {:induction false} SumMeans(ws: seq<nat>)
    ensures Sum(ws) >= 1 <==> exists i: nat :: Some1(ws, i)
    ensures Sum(ws) >= 2 <==>
      (exists i: nat :: Some2(ws, i)) || exists i: nat, j: nat :: i < j && Some1(ws, i) && Some1(ws, j)
    decreases |ws|
  {
    if |ws| > 0 {
      SumMeans(ws[1..]);
      SumShift(ws);
      if i: nat :| Some1(ws[1..], i) { assert Some1(ws, i + 1); }
      if i: nat :| Some2(ws[1..], i) { assert Some2(ws, i + 1); }
      if i: nat, j: nat :| i < j && Some1(ws[1..], i) && Some1(ws[1..], j) {
        assert Some1(ws, i + 1) && Some1(ws, j + 1);
      }
      if i: nat :| Some1(ws, i) && i > 0 { assert Some1(ws[1..], i - 1); }
      if i: nat :| Some2(ws, i) && i > 0 { assert Some2(ws[1..], i - 1); }
      if i: nat, j: nat :| i < j && Some1(ws, i) && Some1(ws, j) {
        assert Some1(ws[1..], j - 1);
        if i > 0 { assert Some1(ws[1..], i - 1); }
      }
      assert Some1(ws, 0) <==> ws[0] >= 1;
      assert Some2(ws, 0) <==> ws[0] >= 2;
    }
  }

  function FieldWeight(f: Field, multiples: bool, name: string): nat {
    if EmbeddedName(f) != Some(name) then 0 else if multiples then 2 else 1
  }

  function FieldWeights(fields: seq<Field>, multiples: bool, name: string): seq<nat> {
    seq(|fields|, i requires 0 <= i < |fields| => FieldWeight(fields[i], multiples, name))
  }

  lemma {:induction false} StructWeight(fields: seq<Field>, multiples: bool, hops: seq<Hop>, name: string)
    ensures Weight(StructEntries(fields, multiples, hops), name) == Sum(FieldWeights(fields, multiples, name))
    decreases |fields|
  {
    if |fields| > 0 {
      var first := EmbeddedEntries(fields[0], multiples, hops);
      StructWeight(fields[1..], multiples, hops, name);
      WeightAppend(first, StructEntries(fields[1..], multiples, hops), name);
      EmbeddedEntryIs(fields[0], multiples, hops);
      if |first| > 0 { assert first == [first[0]] && first[1..] == []; }
      var ws := FieldWeights(fields, multiples, name);
      assert ws[1..] == FieldWeights(fields[1..], multiples, name);
    }
  }

  lemma {:induction false} StructEntryFrom(fields: seq<Field>, multiples: bool, hops: seq<Hop>, e: Entry)
      returns (i: nat)
    requires e in StructEntries(fields, multiples, hops)
    ensures EmbedsAt(fields, i, e.name) && e.hops == hops + [Hop(fields[i].name, fields[i].typ.Pointer?)]
    decreases |fields|
  {
    EmbeddedEntryIs(fields[0], multiples, hops);
    i := 0;
    if e !in EmbeddedEntries(fields[0], multiples, hops) {
      i := StructEntryFrom(fields[1..], multiples, hops, e);
      i := i + 1;
    }
  }

  // One level and the next.

  function NextWeights(env: Env, level: seq<Entry>, name: string): seq<nat> {
    seq(|level|, k requires 0 <= k < |level| =>
      Sum(FieldWeights(FieldsOf(env, level[k].name), level[k].multiples, name)))
  }

  lemma NextOfEntry(env: Env, e: Entry, name: string)
    ensures Weight(EntryNext(env, e), name) == Sum(FieldWeights(FieldsOf(env, e.name), e.multiples, name))
  {
    StructWeight(FieldsOf(env, e.name), e.multiples, e.hops, name);
  }

  lemma {:induction false} NextWeight(env: Env, level: seq<Entry>, name: string)
    ensures Weight(LevelNext(env, level), name) == Sum(NextWeights(env, level, name))
    decreases |level|
  {
    if |level| > 0 {
      NextWeight(env, level[1..], name);
      WeightAppend(EntryNext(env, level[0]), LevelNext(env, level[1..]), name);
      NextOfEntry(env, level[0], name);
      var ws := NextWeights(env, level, name);
      assert ws[1..] == NextWeights(env, level[1..], name);
    }
  }

  lemma {:induction false} NextFrom(env: Env, level: seq<Entry>, e: Entry) returns (k: nat, i: nat)
    requires e in LevelNext(env, level)
    ensures k < |level| && EmbedsAt(FieldsOf(env, level[k].name), i, e.name)
    ensures var f := FieldsOf(env, level[k].name)[i]; e.hops == level[k].hops + [Hop(f.name, f.typ.Pointer?)]
    decreases |level|
  {
    if e in EntryNext(env, level[0]) {
      k := 0;
      i := StructEntryFrom(FieldsOf(env, level[0].name), level[0].multiples, level[0].hops, e);
    } else {
      k, i := NextFrom(env, level[1..], e);
      k := k + 1;
    }
  }

  /** The entry `level[k]` embeds the name in its field `i`. */
  predicate Embeds(env: Env, level: seq<Entry>, k: nat, i: nat, name: string) {
    k < |level| && EmbedsAt(FieldsOf(env, level[k].name), i, name)
  }

  lemma FieldSum(fields: seq<Field>, multiples: bool, name: string)
    ensures Sum(FieldWeights(fields, multiples, name)) >= 1 <==> exists i: nat :: EmbedsAt(fields, i, name)
    ensures Sum(FieldWeights(fields, multiples, name)) >= 2 <==>
      || (multiples && exists i: nat :: EmbedsAt(fields, i, name))
      || exists i: nat, j: nat :: i < j && EmbedsAt(fields, i, name) && EmbedsAt(fields, j, name)
  {
    var ws := FieldWeights(fields, multiples, name);
    SumMeans(ws);
    assert forall i: nat :: Some1(ws, i) <==> EmbedsAt(fields, i, name);
    assert forall i: nat :: Some2(ws, i) <==> multiples && EmbedsAt(fields, i, name);
  }

  /** How the entry `level[k]` embeds a name: in some field, and in two of its fields. */
  ghost predicate EmbedsSome(env: Env, level: seq<Entry>, k: nat, m: string) {
    exists i: nat :: Embeds(env, level, k, i, m)
  }

  ghost predicate EmbedsTwice(env: Env, level: seq<Entry>, k: nat, m: string) {
    exists i: nat, j: nat :: i < j && Embeds(env, level, k, i, m) && Embeds(env, level, k, j, m)
  }

  /** The three ways in which a name has two paths at the next level. */
  ghost predicate ThroughMultiple(env: Env, level: seq<Entry>, m: string) {
    exists k: nat :: EmbedsSome(env, level, k, m) && level[k].multiples
  }

  ghost predicate TwiceByOne(env: Env, level: seq<Entry>, m: string) {
    exists k: nat :: EmbedsTwice(env, level, k, m)
  }

  ghost predicate ByTwo(env: Env, level: seq<Entry>, m: string) {
    exists k: nat, l: nat :: k < l && EmbedsSome(env, level, k, m) && EmbedsSome(env, level, l, m)
  }

  ghost predicate TwoWays(env: Env, level: seq<Entry>, m: string) {
    ThroughMultiple(env, level, m) || TwiceByOne(env, level, m) || ByTwo(env, level, m)
  }

  lemma EntryWays(env: Env, level: seq<Entry>, k: nat, name: string)
    ensures Some1(NextWeights(env, level, name), k) <==> EmbedsSome(env, level, k, name)
    ensures Some2(NextWeights(env, level, name), k) <==>
      (EmbedsSome(env, level, k, name) && level[k].multiples) || EmbedsTwice(env, level, k, name)
  {
    if k < |level| {
      var fields := FieldsOf(env, level[k].name);
      FieldSum(fields, level[k].multiples, name);
      assert forall i: nat :: EmbedsAt(fields, i, name) <==> Embeds(env, level, k, i, name);
    }
  }

  /** What the next level has of a name: once for each way an entry embeds it, twice through a multiple entry. */
  lemma NextMeans(env: Env, level: seq<Entry>, name: string)
    ensures Weight(LevelNext(env, level), name) >= 1 <==> exists k: nat :: EmbedsSome(env, level, k, name)
    ensures Weight(LevelNext(env, level), name) >= 2 <==> TwoWays(env, level, name)
  {
    var ws := NextWeights(env, level, name);
    NextWeight(env, level, name);
    SumMeans(ws);
    forall k: nat
      ensures Some1(ws, k) <==> EmbedsSome(env, level, k, name)
      ensures Some2(ws, k) <==>
        (EmbedsSome(env, level, k, name) && level[k].multiples) || EmbedsTwice(env, level, k, name)
    {
      EntryWays(env, level, k, name);
    }
  }

  // Levels and paths.

  predicate Path(env: Env, n: string, d: nat, p: seq<nat>, m: string) {
    |p| == d && LeadsTo(env, n, p, m)
  }

  ghost predicate AtDepth(env: Env, n: string, d: nat, m: string) {
    exists p :: Path(env, n, d, p, m)
  }

  ghost predicate Within(env: Env, n: string, d: nat, m: string) {
    exists p :: |p| < d && LeadsTo(env, n, p, m)
  }

  ghost predicate TwoPaths(env: Env, n: string, d: nat, m: string) {
    exists p, q :: p != q && Path(env, n, d, p, m) && Path(env, n, d, q, m)
  }

  ghost predicate EntryOk(env: Env, n: string, d: nat, e: Entry) {
    && (e.multiples <==> TwoPaths(env, n, d, e.name))
    && exists p :: Path(env, n, d, p, e.name) && Selections(env, n, p) == e.hops
  }

  /** The type was not met at a smaller depth. */
  predicate IsNew(env: Env, seen: set<string>, m: string) {
    m in env.decls && m !in seen
  }

  /** `seen` holds the types nearer than `d`, and of the others the level has those at depth `d`. */
  ghost predicate LevelOk(env: Env, n: string, d: nat, level: seq<Entry>, seen: set<string>) {
    && DistinctEntries(level)
    && (forall m :: m in env.decls ==> (m in seen <==> Within(env, n, d, m)))
    && (forall m :: IsNew(env, seen, m) ==> (m in LevelNames(level) <==> AtDepth(env, n, d, m)))
    && (forall e :: e in level && IsNew(env, seen, e.name) ==> EntryOk(env, n, d, e))
  }

  ghost predicate NoneNearer(env: Env, n: string, d: nat) {
    forall q :: |q| < d ==> !LeadsToReset(env, n, q)
  }

  lemma PathSnoc(env: Env, n: string, p: seq<nat>, x: string, i: nat, m: string)
    requires LeadsTo(env, n, p, x) && EmbedsAt(FieldsOf(env, x), i, m)
    ensures LeadsTo(env, n, p + [i], m)
    ensures var f := FieldsOf(env, x)[i];
      Selections(env, n, p + [i]) == Selections(env, n, p) + [Hop(f.name, f.typ.Pointer?)]
  {
    assert (p + [i])[..|p|] == p;
  }

  lemma PathInit(env: Env, n: string, p: seq<nat>, m: string)
    requires |p| > 0 && LeadsTo(env, n, p, m)
    ensures var last := |p| - 1;
      End(env, n, p[..last]).Some? && EmbedsAt(FieldsOf(env, End(env, n, p[..last]).value), p[last], m)
  {
  }

  lemma EmbedderIsDeclared(env: Env, x: string, i: nat, m: string)
    requires EmbedsAt(FieldsOf(env, x), i, m)
    ensures x in env.decls
  {
  }

  lemma InitialLevel(env: Env, n: string)
    ensures LevelOk(env, n, 0, [Entry(n, false, [])], {}) && NoneNearer(env, n, 0)
  {
    var e := Entry(n, false, []);
    assert Path(env, n, 0, [], n);
    assert forall p, m :: Path(env, n, 0, p, m) ==> p == [] && m == n;
    assert Selections(env, n, []) == e.hops;
  }

  /** `Fresh` keeps the order and the entries of new types. */
  lemma {:induction false} FreshMeans(env: Env, level: seq<Entry>, seen: set<string>)
    requires DistinctEntries(level)
    ensures DistinctEntries(Fresh(env, level, seen))
    ensures forall e :: e in Fresh(env, level, seen) <==> e in level && IsNew(env, seen, e.name)
    decreases |level|
  {
    if |level| > 0 {
      assert level == [level[0]] + level[1..];
      FreshMeans(env, level[1..], seen);
      var rest := Fresh(env, level[1..], seen);
      forall i | 0 <= i < |rest| ensures rest[i].name != level[0].name {
        assert rest[i] in level[1..];
        var j :| 0 <= j < |level| - 1 && level[1..][j] == rest[i];
        assert level[j + 1] == rest[i];
      }
    }
  }

  /** The current entries of a level are the types at depth `d` and no nearer. */
  lemma CurrentMeans(env: Env, n: string, d: nat, level: seq<Entry>, seen: set<string>, m: string)
    requires LevelOk(env, n, d, level, seen)
    ensures m in LevelNames(Fresh(env, level, seen)) <==> IsNew(env, seen, m) && AtDepth(env, n, d, m)
  {
    var current := Fresh(env, level, seen);
    FreshMeans(env, level, seen);
    if IsNew(env, seen, m) && m in LevelNames(level) {
      var e :| e in level && e.name == m;
      assert e in current;
    }
  }

  lemma ParentIsNoNearer(env: Env, n: string, d: nat, x: string, i: nat, m: string)
    requires EmbedsAt(FieldsOf(env, x), i, m)
    ensures Within(env, n, d, x) ==> Within(env, n, d + 1, m)
  {
    if q :| |q| < d && LeadsTo(env, n, q, x) {
      PathSnoc(env, n, q, x, i, m);
      assert |q + [i]| < d + 1 && LeadsTo(env, n, q + [i], m);
    }
  }

  /** The last but one type on a path to a new type of the next depth is current. */
  lemma ParentIsCurrent(env: Env, n: string, d: nat, level: seq<Entry>, seen: set<string>, p: seq<nat>, m: string)
      returns (k: nat)
    requires LevelOk(env, n, d, level, seen) && Path(env, n, d + 1, p, m) && m in env.decls
    requires !Within(env, n, d + 1, m)
    ensures var current := Fresh(env, level, seen);
      k < |current| && End(env, n, p[..d]) == Some(current[k].name) && Embeds(env, current, k, p[d], m)
  {
    PathInit(env, n, p, m);
    var x := End(env, n, p[..d]).value;
    EmbedderIsDeclared(env, x, p[d], m);
    assert Path(env, n, d, p[..d], x);
    ParentIsNoNearer(env, n, d, x, p[d], m);
    CurrentMeans(env, n, d, level, seen, x);
    var current := Fresh(env, level, seen);
    var e :| e in current && e.name == x;
    k :| 0 <= k < |current| && current[k] == e;
  }

  lemma CurrentPath(env: Env, n: string, d: nat, level: seq<Entry>, seen: set<string>, e: Entry) returns (p: seq<nat>)
    requires LevelOk(env, n, d, level, seen) && e in Fresh(env, level, seen)
    ensures Path(env, n, d, p, e.name) && Selections(env, n, p) == e.hops
  {
    assert EntryOk(env, n, d, e);
    p :| Path(env, n, d, p, e.name) && Selections(env, n, p) == e.hops;
  }

  /** Types of the next depth are those that current entries embed. */
  lemma NextAtDepth(env: Env, n: string, d: nat, level: seq<Entry>, seen: set<string>, m: string)
    requires LevelOk(env, n, d, level, seen) && m in env.decls && !Within(env, n, d + 1, m)
    ensures AtDepth(env, n, d + 1, m) <==> exists k: nat :: EmbedsSome(env, Fresh(env, level, seen), k, m)
  {
    var current := Fresh(env, level, seen);
    if AtDepth(env, n, d + 1, m) {
      var p :| Path(env, n, d + 1, p, m);
      var k := ParentIsCurrent(env, n, d, level, seen, p, m);
      assert EmbedsSome(env, current, k, m);
    }
    if k: nat :| EmbedsSome(env, current, k, m) {
      var i: nat :| Embeds(env, current, k, i, m);
      var p := CurrentPath(env, n, d, level, seen, current[k]);
      PathSnoc(env, n, p, current[k].name, i, m);
      assert Path(env, n, d + 1, p + [i], m);
    }
  }

  lemma TwoPathsSnoc(env: Env, n: string, d: nat, p: seq<nat>, x: string, i: nat, q: seq<nat>, y: string, j: nat,
      m: string)
    requires Path(env, n, d, p, x) && Path(env, n, d, q, y) && (p != q || i != j)
    requires EmbedsAt(FieldsOf(env, x), i, m) && EmbedsAt(FieldsOf(env, y), j, m)
    ensures TwoPaths(env, n, d + 1, m)
  {
    PathSnoc(env, n, p, x, i, m);
    PathSnoc(env, n, q, y, j, m);
    assert (p + [i])[..d] == p && (q + [j])[..d] == q && (p + [i])[d] == i && (q + [j])[d] == j;
    assert Path(env, n, d + 1, p + [i], m) && Path(env, n, d + 1, q + [j], m);
  }

  lemma MultipleGivesPaths(env: Env, n: string, d: nat, level: seq<Entry>, seen: set<string>, m: string)
    requires LevelOk(env, n, d, level, seen) && ThroughMultiple(env, Fresh(env, level, seen), m)
    ensures TwoPaths(env, n, d + 1, m)
  {
    var current := Fresh(env, level, seen);
    var k: nat :| EmbedsSome(env, current, k, m) && current[k].multiples;
    var i: nat :| Embeds(env, current, k, i, m);
    assert EntryOk(env, n, d, current[k]);
    var p, q :| p != q && Path(env, n, d, p, current[k].name) && Path(env, n, d, q, current[k].name);
    TwoPathsSnoc(env, n, d, p, current[k].name, i, q, current[k].name, i, m);
  }

  lemma OneGivesPaths(env: Env, n: string, d: nat, level: seq<Entry>, seen: set<string>, m: string)
    requires LevelOk(env, n, d, level, seen) && TwiceByOne(env, Fresh(env, level, seen), m)
    ensures TwoPaths(env, n, d + 1, m)
  {
    var current := Fresh(env, level, seen);
    var k: nat :| EmbedsTwice(env, current, k, m);
    var i: nat, j: nat :| i < j && Embeds(env, current, k, i, m) && Embeds(env, current, k, j, m);
    var p := CurrentPath(env, n, d, level, seen, current[k]);
    TwoPathsSnoc(env, n, d, p, current[k].name, i, p, current[k].name, j, m);
  }

  lemma TwoGivePaths(env: Env, n: string, d: nat, level: seq<Entry>, seen: set<string>, m: string)
    requires LevelOk(env, n, d, level, seen) && ByTwo(env, Fresh(env, level, seen), m)
    ensures TwoPaths(env, n, d + 1, m)
  {
    var current := Fresh(env, level, seen);
    FreshMeans(env, level, seen);
    var k: nat, l: nat :| k < l && EmbedsSome(env, current, k, m) && EmbedsSome(env, current, l, m);
    var i: nat, j: nat :| Embeds(env, current, k, i, m) && Embeds(env, current, l, j, m);
    var p := CurrentPath(env, n, d, level, seen, current[k]);
    var q := CurrentPath(env, n, d, level, seen, current[l]);
    TwoPathsSnoc(env, n, d, p, current[k].name, i, q, current[l].name, j, m);
  }

  lemma WaysGivePaths(env: Env, n: string, d: nat, level: seq<Entry>, seen: set<string>, m: string)
    requires LevelOk(env, n, d, level, seen) && TwoWays(env, Fresh(env, level, seen), m)
    ensures TwoPaths(env, n, d + 1, m)
  {
    var current := Fresh(env, level, seen);
    if ThroughMultiple(env, current, m) { MultipleGivesPaths(env, n, d, level, seen, m); }
    else if TwiceByOne(env, current, m) { OneGivesPaths(env, n, d, level, seen, m); }
    else { TwoGivePaths(env, n, d, level, seen, m); }
  }

  /** Two different paths end in two entries, in two fields of one, or in one field of an entry with two paths. */
  lemma TwoEmbeddings(env: Env, level: seq<Entry>, k: nat, i: nat, l: nat, j: nat, m: string)
    requires Embeds(env, level, k, i, m) && Embeds(env, level, l, j, m)
    requires k == l && i == j ==> level[k].multiples
    ensures TwoWays(env, level, m)
  {
    assert EmbedsSome(env, level, k, m) && EmbedsSome(env, level, l, m);
    if k != l { assert ByTwo(env, level, m); }
    else if i != j { assert EmbedsTwice(env, level, k, m); }
    else { assert ThroughMultiple(env, level, m); }
  }

  lemma PathsGiveWays(env: Env, n: string, d: nat, level: seq<Entry>, seen: set<string>, m: string)
    requires LevelOk(env, n, d, level, seen) && TwoPaths(env, n, d + 1, m)
    requires m in env.decls && !Within(env, n, d + 1, m)
    ensures TwoWays(env, Fresh(env, level, seen), m)
  {
    var p, q :| p != q && Path(env, n, d + 1, p, m) && Path(env, n, d + 1, q, m);
    var k := ParentIsCurrent(env, n, d, level, seen, p, m);
    var l := ParentIsCurrent(env, n, d, level, seen, q, m);
    if k == l && p[d] == q[d] { SameEmbedding(env, n, d, level, seen, p, q, Fresh(env, level, seen)[k]); }
    TwoEmbeddings(env, Fresh(env, level, seen), k, p[d], l, q[d], m);
  }

  lemma DifferBefore(p: seq<nat>, q: seq<nat>, d: nat)
    requires |p| == d + 1 && |q| == d + 1 && p != q && p[d] == q[d]
    ensures p[..d] != q[..d]
  {
    assert p == p[..d] + [p[d]] && q == q[..d] + [q[d]];
  }

  lemma SameEmbedding(env: Env, n: string, d: nat, level: seq<Entry>, seen: set<string>, p: seq<nat>, q: seq<nat>,
      e: Entry)
    requires LevelOk(env, n, d, level, seen) && e in Fresh(env, level, seen)
    requires |p| == d + 1 && |q| == d + 1 && p != q && p[d] == q[d]
    requires LeadsTo(env, n, p[..d], e.name) && LeadsTo(env, n, q[..d], e.name)
    ensures e.multiples
  {
    DifferBefore(p, q, d);
    assert Path(env, n, d, p[..d], e.name) && Path(env, n, d, q[..d], e.name);
    assert EntryOk(env, n, d, e);
  }

  /** The entries of the next level are as they should be. */
  lemma NextEntryOk(env: Env, n: string, d: nat, level: seq<Entry>, seen: set<string>, e: Entry)
    requires LevelOk(env, n, d, level, seen) && e in Consolidate(LevelNext(env, Fresh(env, level, seen)))
    requires e.name in env.decls && !Within(env, n, d + 1, e.name)
    ensures EntryOk(env, n, d + 1, e)
  {
    var next := LevelNext(env, Fresh(env, level, seen));
    ConsolidateMeans(next);
    NextMultiple(env, n, d, level, seen, e.name);
    var x :| x in next && x.name == e.name && x.hops == e.hops;
    NextHops(env, n, d, level, seen, x);
  }

  lemma NextMultiple(env: Env, n: string, d: nat, level: seq<Entry>, seen: set<string>, m: string)
    requires LevelOk(env, n, d, level, seen) && m in env.decls && !Within(env, n, d + 1, m)
    ensures Weight(LevelNext(env, Fresh(env, level, seen)), m) >= 2 <==> TwoPaths(env, n, d + 1, m)
  {
    var current := Fresh(env, level, seen);
    NextMeans(env, current, m);
    if TwoWays(env, current, m) { WaysGivePaths(env, n, d, level, seen, m); }
    if TwoPaths(env, n, d + 1, m) { PathsGiveWays(env, n, d, level, seen, m); }
  }

  lemma NextHops(env: Env, n: string, d: nat, level: seq<Entry>, seen: set<string>, x: Entry)
    requires LevelOk(env, n, d, level, seen) && x in LevelNext(env, Fresh(env, level, seen))
    ensures exists p :: Path(env, n, d + 1, p, x.name) && Selections(env, n, p) == x.hops
  {
    var current := Fresh(env, level, seen);
    var k, i := NextFrom(env, current, x);
    var p := CurrentPath(env, n, d, level, seen, current[k]);
    PathSnoc(env, n, p, current[k].name, i, x.name);
    assert Path(env, n, d + 1, p + [i], x.name);
  }

  lemma SeenNext(env: Env, n: string, d: nat, level: seq<Entry>, seen: set<string>, m: string)
    requires LevelOk(env, n, d, level, seen) && m in env.decls
    ensures m in seen + LevelNames(Fresh(env, level, seen)) <==> Within(env, n, d + 1, m)
  {
    CurrentMeans(env, n, d, level, seen, m);
    if p :| |p| < d + 1 && LeadsTo(env, n, p, m) {
      if |p| == d { assert Path(env, n, d, p, m); }
    }
    if p :| Path(env, n, d, p, m) { assert |p| < d + 1 && LeadsTo(env, n, p, m); }
  }

  lemma NextNames(env: Env, n: string, d: nat, level: seq<Entry>, seen: set<string>, m: string)
    requires LevelOk(env, n, d, level, seen) && m in env.decls && !Within(env, n, d + 1, m)
    ensures m in LevelNames(Consolidate(LevelNext(env, Fresh(env, level, seen)))) <==> AtDepth(env, n, d + 1, m)
  {
    var current := Fresh(env, level, seen);
    NextAtDepth(env, n, d, level, seen, m);
    NextMeans(env, current, m);
    WeightOfNames(LevelNext(env, current), m);
  }

  lemma NextLevelOk(env: Env, n: string, d: nat, level: seq<Entry>, seen: set<string>)
    requires LevelOk(env, n, d, level, seen)
    ensures var current := Fresh(env, level, seen);
      LevelOk(env, n, d + 1, Consolidate(LevelNext(env, current)), seen + LevelNames(current))
  {
    var current := Fresh(env, level, seen);
    var next, seen' := Consolidate(LevelNext(env, current)), seen + LevelNames(current);
    ConsolidateMeans(LevelNext(env, current));
    forall m | m in env.decls ensures m in seen' <==> Within(env, n, d + 1, m) {
      SeenNext(env, n, d, level, seen, m);
    }
    forall m | IsNew(env, seen', m) ensures m in LevelNames(next) <==> AtDepth(env, n, d + 1, m) {
      NextNames(env, n, d, level, seen, m);
    }
    forall e | e in next && IsNew(env, seen', e.name) ensures EntryOk(env, n, d + 1, e) {
      NextEntryOk(env, n, d, level, seen, e);
    }
  }

  // What the search finds.

  /** What an entry's underlying type adds to the methods declared on it. */
  function InnerHits(env: Env, e: Entry): seq<Hit> {
    match Underlying(env, e.name)
    case Struct(fields) => FieldHits(fields)
    case Interface(decl) => MethodHits(decl, e)
    case _ => []
  }

  lemma {:induction false} AllFieldHits(fields: seq<Field>)
    ensures forall hit :: hit in FieldHits(fields) ==> hit.FieldHit?
  {
    if |fields| > 0 { AllFieldHits(fields[1..]); }
  }

  lemma InnerHitsMean(env: Env, e: Entry)
    ensures InnerHits(env, e) != [] <==>
      HasFieldReset(Underlying(env, e.name)) ||
      (Underlying(env, e.name).Interface? && !Underlying(env, e.name).reset.Absent?)
    ensures |InnerHits(env, e)| == |InnerHits(env, Entry(e.name, false, []))|
    ensures InnerHits(env, e) == [MethodHit(Niladic, e)] <==>
      Underlying(env, e.name).Interface? && Underlying(env, e.name).reset.Niladic?
    ensures forall hit :: hit in InnerHits(env, e) && hit.MethodHit? ==> hit.owner == e
  {
    match Underlying(env, e.name)
    case Struct(fields) =>
      FieldHitsMean(fields);
      AllFieldHits(fields);
      assert MethodHit(Niladic, e) !in FieldHits(fields);
    case Interface(decl) =>
      if InnerHits(env, e) == [MethodHit(Niladic, e)] { assert MethodHits(decl, e)[0].decl == Niladic; }
    case _ =>
  }

  lemma EntryHitsMean(env: Env, e: Entry)
    requires OneReset(env, e.name)
    ensures HasReset(env, e.name) <==> |EntryHits(env, e)| == 1
    ensures !HasReset(env, e.name) <==> EntryHits(env, e) == []
    ensures HasNiladic(env, e.name) <==> EntryHits(env, e) == [MethodHit(Niladic, e)]
    ensures forall hit :: hit in EntryHits(env, e) && hit.MethodHit? ==> hit.owner == e
  {
    if e.name in env.decls {
      var reset, d := env.decls[e.name].reset, Entry(e.name, false, []);
      InnerHitsMean(env, e);
      assert EntryHits(env, e) == MethodHits(reset, e) + InnerHits(env, e);
      assert EntryHits(env, d) == MethodHits(reset, d) + InnerHits(env, d);
      if reset.Absent? {
        assert EntryHits(env, e) == InnerHits(env, e);
      } else {
        assert InnerHits(env, e) == [] && EntryHits(env, e) == [MethodHit(reset, e)];
        assert EntryHits(env, e)[0].decl == reset;
      }
    }
  }

  ghost predicate AllOneReset(env: Env) {
    forall n :: OneReset(env, n)
  }

  lemma {:induction false} NoHits(env: Env, level: seq<Entry>)
    requires AllOneReset(env)
    ensures LevelHits(env, level) == [] <==> forall e :: e in level ==> !HasReset(env, e.name)
    decreases |level|
  {
    if |level| > 0 {
      assert level == [level[0]] + level[1..];
      NoHits(env, level[1..]);
      EntryHitsMean(env, level[0]);
    }
  }

  /** Of the entries of the level, only `e` has a `Reset`. */
  ghost predicate OnlyOne(env: Env, level: seq<Entry>, e: Entry) {
    e in level && HasReset(env, e.name) && forall x :: x in level && HasReset(env, x.name) ==> x == e
  }

  lemma {:induction false} OneHit(env: Env, level: seq<Entry>, e: Entry)
    requires AllOneReset(env) && DistinctEntries(level) && OnlyOne(env, level, e)
    ensures LevelHits(env, level) == EntryHits(env, e)
    decreases |level|
  {
    var d, rest := level[0], level[1..];
    assert level == [d] + rest;
    EntryHitsMean(env, d);
    if d == e {
      forall x | x in rest ensures !HasReset(env, x.name) {
        var j :| 0 <= j < |rest| && rest[j] == x;
        assert level[j + 1].name != level[0].name;
      }
      NoHits(env, rest);
    } else {
      assert e in rest && OnlyOne(env, rest, e);
      OneHit(env, rest, e);
    }
  }

  /** When the level has hits, one entry alone has them, or there are several. */
  lemma {:induction false} SomeHits(env: Env, level: seq<Entry>) returns (e: Entry)
    requires AllOneReset(env) && DistinctEntries(level) && LevelHits(env, level) != []
    ensures e in level && HasReset(env, e.name)
    ensures OnlyOne(env, level, e) || |LevelHits(env, level)| >= 2
    decreases |level|
  {
    var d, rest := level[0], level[1..];
    assert level == [d] + rest;
    EntryHitsMean(env, d);
    NoHits(env, rest);
    if HasReset(env, d.name) { e := d; } else { e := SomeHits(env, rest); }
  }

  /** `e` is reached by the only shallowest path to a `Reset`, a method `func()`, with the selections of that path. */
  ghost predicate SelectedBy(env: Env, n: string, e: Entry) {
    HasNiladic(env, e.name) &&
    exists p :: Shallowest(env, n, p) && LeadsTo(env, n, p, e.name) && Selections(env, n, p) == e.hops
  }

  ghost predicate Selects(env: Env, n: string) {
    exists e :: SelectedBy(env, n, e)
  }

  /** The search from this level finds what the rule selects. */
  ghost predicate Finds(env: Env, n: string, hits: seq<Hit>) {
    && (FindsReset(hits) <==> Selects(env, n))
    && (FindsReset(hits) ==> SelectedBy(env, n, hits[0].owner))
  }

  lemma NoNearerReset(env: Env, n: string, d: nat, m: string)
    requires NoneNearer(env, n, d) && HasReset(env, m)
    ensures !Within(env, n, d, m)
  {
    forall q | |q| < d ensures !LeadsTo(env, n, q, m) { assert !LeadsToReset(env, n, q); }
  }

  /** A path of length `d` to a `Reset` ends in a current entry. */
  lemma NearestReset(env: Env, n: string, d: nat, level: seq<Entry>, seen: set<string>, q: seq<nat>)
      returns (e: Entry)
    requires LevelOk(env, n, d, level, seen) && NoneNearer(env, n, d)
    requires |q| == d && LeadsToReset(env, n, q)
    ensures e in Fresh(env, level, seen) && LeadsTo(env, n, q, e.name)
  {
    var m := End(env, n, q).value;
    assert Path(env, n, d, q, m);
    NoNearerReset(env, n, d, m);
    CurrentMeans(env, n, d, level, seen, m);
    e :| e in Fresh(env, level, seen) && e.name == m;
  }

  /** With one entry that has a `Reset`, and one path to it, that path is the shallowest. */
  lemma OneIsSelected(env: Env, n: string, d: nat, level: seq<Entry>, seen: set<string>, e: Entry)
    requires LevelOk(env, n, d, level, seen) && NoneNearer(env, n, d)
    requires OnlyOne(env, Fresh(env, level, seen), e) && !e.multiples && HasNiladic(env, e.name)
    ensures SelectedBy(env, n, e)
  {
    assert EntryOk(env, n, d, e);
    var p :| Path(env, n, d, p, e.name) && Selections(env, n, p) == e.hops;
    forall q | |q| <= |p| && LeadsToReset(env, n, q) ensures q == p {
      var x := NearestReset(env, n, d, level, seen, q);
      assert x == e && Path(env, n, d, q, e.name);
    }
    assert Shallowest(env, n, p);
  }

  /** What the rule selects, when something is met at this depth, is the only entry that has a `Reset`. */
  lemma SelectedIsOne(env: Env, n: string, d: nat, level: seq<Entry>, seen: set<string>, x: Entry, p: seq<nat>)
    requires LevelOk(env, n, d, level, seen) && NoneNearer(env, n, d)
    requires x in Fresh(env, level, seen) && HasReset(env, x.name) && Shallowest(env, n, p)
    ensures OnlyOne(env, Fresh(env, level, seen), x) && !x.multiples && LeadsTo(env, n, p, x.name)
  {
    assert EntryOk(env, n, d, x);
    ShallowestAtDepth(env, n, d, x.name, p);
    forall y | y in Fresh(env, level, seen) && HasReset(env, y.name) ensures y == x {
      assert EntryOk(env, n, d, y);
      ShallowestAtDepth(env, n, d, y.name, p);
      SameName(env, level, seen, x, y);
    }
  }

  lemma SameName(env: Env, level: seq<Entry>, seen: set<string>, x: Entry, y: Entry)
    requires DistinctEntries(level) && x in Fresh(env, level, seen) && y in Fresh(env, level, seen) && x.name == y.name
    ensures x == y
  {
  }

  lemma ShallowestAtDepth(env: Env, n: string, d: nat, m: string, p: seq<nat>)
    requires NoneNearer(env, n, d) && AtDepth(env, n, d, m) && HasReset(env, m) && Shallowest(env, n, p)
    ensures Path(env, n, d, p, m) && !TwoPaths(env, n, d, m)
  {
    var q :| Path(env, n, d, q, m);
    assert LeadsToReset(env, n, q) && |p| >= d;
    assert q == p;
    forall r | Path(env, n, d, r, m) ensures r == p { assert LeadsToReset(env, n, r); }
  }

  /** At a depth with hits, the search and the rule agree. */
  lemma HitsAgree(env: Env, n: string, d: nat, level: seq<Entry>, seen: set<string>)
    requires AllOneReset(env) && LevelOk(env, n, d, level, seen) && NoneNearer(env, n, d)
    requires LevelHits(env, Fresh(env, level, seen)) != []
    ensures Finds(env, n, LevelHits(env, Fresh(env, level, seen)))
  {
    var current := Fresh(env, level, seen);
    var hits := LevelHits(env, current);
    FreshMeans(env, level, seen);
    var x := SomeHits(env, current);
    EntryHitsMean(env, x);
    if OnlyOne(env, current, x) {
      OneHit(env, current, x);
      if FindsReset(hits) {
        FoundIsNiladic(env, x);
        OneIsSelected(env, n, d, level, seen, x);
      }
    }
    if e :| SelectedBy(env, n, e) { SelectedIsFound(env, n, d, level, seen, x, e); }
  }

  lemma FoundIsNiladic(env: Env, x: Entry)
    requires OneReset(env, x.name) && FindsReset(EntryHits(env, x))
    ensures HasNiladic(env, x.name) && !x.multiples && EntryHits(env, x)[0].owner == x
  {
    var hits := EntryHits(env, x);
    EntryHitsMean(env, x);
    assert hits == [hits[0]] && hits[0] in hits && hits[0] == MethodHit(Niladic, x);
  }

  lemma SelectedIsFound(env: Env, n: string, d: nat, level: seq<Entry>, seen: set<string>, x: Entry, e: Entry)
    requires AllOneReset(env) && LevelOk(env, n, d, level, seen) && NoneNearer(env, n, d)
    requires x in Fresh(env, level, seen) && HasReset(env, x.name) && SelectedBy(env, n, e)
    ensures FindsReset(LevelHits(env, Fresh(env, level, seen)))
  {
    var p :| Shallowest(env, n, p) && LeadsTo(env, n, p, e.name) && Selections(env, n, p) == e.hops;
    SelectedIsOne(env, n, d, level, seen, x, p);
    FreshMeans(env, level, seen);
    OneHit(env, Fresh(env, level, seen), x);
    EntryHitsMean(env, x);
  }

  /** At a depth without hits, no path of that length leads to a `Reset`. */
  lemma NoneAtDepth(env: Env, n: string, d: nat, level: seq<Entry>, seen: set<string>)
    requires AllOneReset(env) && LevelOk(env, n, d, level, seen) && NoneNearer(env, n, d)
    requires LevelHits(env, Fresh(env, level, seen)) == []
    ensures NoneNearer(env, n, d + 1)
  {
    NoHits(env, Fresh(env, level, seen));
    forall q | |q| < d + 1 ensures !LeadsToReset(env, n, q) {
      if |q| == d && LeadsToReset(env, n, q) {
        var e := NearestReset(env, n, d, level, seen, q);
      }
    }
  }

  /** Once a depth has no new types, every type is nearer. */
  lemma {:induction false} NothingFarther(env: Env, n: string, d: nat, level: seq<Entry>, seen: set<string>,
      p: seq<nat>, m: string)
    requires LevelOk(env, n, d, level, seen) && Fresh(env, level, seen) == []
    requires LeadsTo(env, n, p, m) && m in env.decls
    ensures Within(env, n, d, m)
    decreases |p|
  {
    if |p| == d {
      assert Path(env, n, d, p, m);
      CurrentMeans(env, n, d, level, seen, m);
    } else if |p| > d {
      PathInit(env, n, p, m);
      var last := |p| - 1;
      var x := End(env, n, p[..last]).value;
      EmbedderIsDeclared(env, x, p[last], m);
      NothingFarther(env, n, d, level, seen, p[..last], x);
      var q :| |q| < d && LeadsTo(env, n, q, x);
      PathSnoc(env, n, q, x, p[last], m);
      NothingFarther(env, n, d, level, seen, q + [p[last]], m);
    }
  }

  lemma NothingLeft(env: Env, n: string, d: nat, level: seq<Entry>, seen: set<string>)
    requires LevelOk(env, n, d, level, seen) && NoneNearer(env, n, d) && Fresh(env, level, seen) == []
    ensures !Selects(env, n)
  {
    forall p ensures !LeadsToReset(env, n, p) {
      if LeadsToReset(env, n, p) {
        var m := End(env, n, p).value;
        NoNearerReset(env, n, d, m);
        NothingFarther(env, n, d, level, seen, p, m);
      }
    }
  }

  lemma {:induction false} SearchFollowsRule(env: Env, n: string, d: nat, level: seq<Entry>, seen: set<string>)
    requires AllOneReset(env) && LevelOk(env, n, d, level, seen) && NoneNearer(env, n, d)
    ensures Finds(env, n, Search(env, level, seen))
    decreases env.decls.Keys - seen
  {
    var current := Fresh(env, level, seen);
    if |current| == 0 {
      NothingLeft(env, n, d, level, seen);
    } else if LevelHits(env, current) != [] {
      HitsAgree(env, n, d, level, seen);
    } else {
      NoneAtDepth(env, n, d, level, seen);
      NextLevelOk(env, n, d, level, seen);
      assert current[0] in current && current[0].name in LevelNames(current);
      SearchFollowsRule(env, n, d + 1, Consolidate(LevelNext(env, current)), seen + LevelNames(current));
    }
  }

  /**
   The method set of a named type, or of a pointer to it, holds `Reset()` exactly when one path of embedded fields leads
   to something of that name and all others that do are longer, and what it leads to is a method `func()`. The search
   gives that path.
   */
  lemma MethodSetIff(env: Env, n: string)
    requires AllOneReset(env)
    ensures MethodSetHasReset(env, Named(n)) <==> Selects(env, n)
    ensures MethodSetHasReset(env, Named(n)) ==> SelectedBy(env, n, ResetHits(env, Named(n))[0].owner)
  {
    InitialLevel(env, n);
    SearchFollowsRule(env, n, 0, [Entry(n, false, [])], {});
  }
}
