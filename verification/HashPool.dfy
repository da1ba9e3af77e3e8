/**
 `hash.Compute` with its cached hashers: one pool of HMAC states per key, filled and emptied by any number of goroutines
 while the garbage collector drops pooled objects at will. `mac` is HMAC-SHA256 (section 2 of RFC 2104) as a function.
 */
module HashPool {
  import opened Wrappers
  import opened Bytes

  /** A `hash.Hash` made by `hmac.New` with a key, and what has been written since its last reset. */
  datatype Hasher = Hasher(key: string, buf: Bytes)

  /** A `sync.Pool`: the key its `New` closure captured, and the hashers (by number) that lie in it. */
  datatype Pool = Pool(newKey: string, idle: multiset<nat>)

  /** Program points of a `Compute` call. */
  datatype Point =
    | Idle
    | Entered(data: Bytes, key: string)                        // about to load the pool
    | Missed(data: Bytes, key: string)                         // no pool yet; about to load or store one
    | Found(data: Bytes, key: string)                          // about to take a hasher
    | Fresh(data: Bytes, key: string, h: nat)                  // hasher taken, nothing written
    | Written(data: Bytes, key: string, h: nat)
    | Summed(data: Bytes, key: string, h: nat, sum: Bytes)     // about to run the deferred putHasher
    | Rinsed(data: Bytes, key: string, h: nat, sum: Bytes)     // hasher reset, about to be put back
    | Done(data: Bytes, key: string, sum: Bytes)

  datatype State = State(pools: map<string, Pool>, hashers: seq<Hasher>, callers: seq<Point>)

  datatype Step =
    | Call(c: nat, data: Bytes, key: string)
    | Load(c: nat)
    | LoadOrStore(c: nat)
    | Take(c: nat, h: nat)      // Get returns a pooled hasher
    | Make(c: nat)              // Get calls New
    | Write(c: nat)
    | Sum(c: nat)
    | Reset(c: nat)
    | Put(c: nat)
    | Evict(key: string, h: nat)

  function At(s: State, c: nat, p: Point): State
    requires c < |s.callers|
  {
    s.(callers := s.callers[c := p])
  }

  function SetHasher(s: State, h: nat, x: Hasher): State
    requires h < |s.hashers|
  {
    s.(hashers := s.hashers[h := x])
  }

  function SetIdle(s: State, key: string, idle: multiset<nat>): State
    requires key in s.pools
  {
    s.(pools := s.pools[key := s.pools[key].(idle := idle)])
  }

  function Apply(mac: (string, Bytes) -> Bytes, s: State, step: Step): Option<State> {
    if step.Evict? then
      if step.key in s.pools && step.h in s.pools[step.key].idle then
        Some(SetIdle(s, step.key, s.pools[step.key].idle - multiset{step.h}))
      else None
    else if step.c >= |s.callers| then None
    else
      var c, p := step.c, s.callers[step.c];
      match step
      case Call(_, data, key) => if p.Idle? || p.Done? then Some(At(s, c, Entered(data, key))) else None
      case Load(_) =>
        if !p.Entered? then None
        else Some(At(s, c, if p.key in s.pools then Found(p.data, p.key) else Missed(p.data, p.key)))
      case LoadOrStore(_) =>
        if !p.Missed? then None
        else if p.key in s.pools then Some(At(s, c, Found(p.data, p.key)))
        else Some(At(s.(pools := s.pools[p.key := Pool(p.key, multiset{})]), c, Found(p.data, p.key)))
      case Take(_, h) =>
        if !p.Found? || p.key !in s.pools || h !in s.pools[p.key].idle then None
        else Some(At(SetIdle(s, p.key, s.pools[p.key].idle - multiset{h}), c, Fresh(p.data, p.key, h)))
      case Make(_) =>
        if !p.Found? || p.key !in s.pools then None
        else
          var made := Hasher(s.pools[p.key].newKey, []);
          Some(At(s.(hashers := s.hashers + [made]), c, Fresh(p.data, p.key, |s.hashers|)))
      case Write(_) =>
        if !p.Fresh? || p.h >= |s.hashers| then None
        else
          var x := s.hashers[p.h];
          Some(At(SetHasher(s, p.h, x.(buf := x.buf + p.data)), c, Written(p.data, p.key, p.h)))
      case Sum(_) =>
        if !p.Written? || p.h >= |s.hashers| then None
        else Some(At(s, c, Summed(p.data, p.key, p.h, mac(s.hashers[p.h].key, s.hashers[p.h].buf))))
      case Reset(_) =>
        if !p.Summed? || p.h >= |s.hashers| then None
        else if p.key !in s.pools then Some(At(s, c, Done(p.data, p.key, p.sum)))
        else Some(At(SetHasher(s, p.h, s.hashers[p.h].(buf := [])), c, Rinsed(p.data, p.key, p.h, p.sum)))
      case Put(_) =>
        if !p.Rinsed? || p.key !in s.pools then None
        else Some(At(SetIdle(s, p.key, s.pools[p.key].idle + multiset{p.h}), c, Done(p.data, p.key, p.sum)))
  }

  function Run(mac: (string, Bytes) -> Bytes, s: State, steps: seq<Step>): Option<State> {
    if |steps| == 0 then Some(s)
    else
      var before := Run(mac, s, steps[..|steps| - 1]);
      if before.None? then None else Apply(mac, before.value, steps[|steps| - 1])
  }

  /** No pools, no hashers, and `n` goroutines. */
  function Start(n: nat): State {
    State(map[], [], seq(n, i => Idle))
  }

  // The invariant.

  predicate Holds(p: Point) {
    p.Fresh? || p.Written? || p.Summed? || p.Rinsed?
  }

  /** A pooled hasher lies in the pool of its own key, once, with nothing written. */
  predicate IdleOk(s: State, key: string, h: nat) {
    key in s.pools && h in s.pools[key].idle ==>
      h < |s.hashers| && s.hashers[h] == Hasher(key, []) && s.pools[key].idle[h] == 1
  }

  predicate PoolOk(s: State, key: string) {
    key in s.pools ==> s.pools[key].newKey == key
  }

  /** A hasher in use is bound to the caller's key, holds what the caller wrote and lies in no pool. */
  predicate CallerOk(mac: (string, Bytes) -> Bytes, s: State, p: Point) {
    && (Holds(p) ==>
          && p.h < |s.hashers|
          && s.hashers[p.h] == Hasher(p.key, if p.Written? || p.Summed? then p.data else [])
          && p.key in s.pools && p.h !in s.pools[p.key].idle)
    && (p.Found? ==> p.key in s.pools)
    && (p.Summed? || p.Rinsed? || p.Done? ==> p.sum == mac(p.key, p.data))
  }

  /** No two callers use one hasher. */
  predicate Exclusive(s: State, c: nat, d: nat) {
    c < d < |s.callers| && Holds(s.callers[c]) && Holds(s.callers[d]) ==> s.callers[c].h != s.callers[d].h
  }

  ghost predicate Inv(mac: (string, Bytes) -> Bytes, s: State) {
    && (forall key :: PoolOk(s, key))
    && (forall key, h :: IdleOk(s, key, h))
    && (forall c :: 0 <= c < |s.callers| ==> CallerOk(mac, s, s.callers[c]))
    && (forall c: nat, d: nat :: Exclusive(s, c, d))
  }

  lemma ExclusiveStep(mac: (string, Bytes) -> Bytes, s: State, step: Step, s': State, c: nat, d: nat)
    requires Inv(mac, s) && Apply(mac, s, step) == Some(s')
    ensures Exclusive(s', c, d)
  {
    if c < d < |s.callers| {
      assert Exclusive(s, c, d);
      assert CallerOk(mac, s, s.callers[c]) && CallerOk(mac, s, s.callers[d]);
      if step.Take? {
        var key := s.callers[step.c].key;
        assert IdleOk(s, key, step.h);
      }
    }
  }

  lemma IdleStep(mac: (string, Bytes) -> Bytes, s: State, step: Step, s': State, key: string, h: nat)
    requires Inv(mac, s) && Apply(mac, s, step) == Some(s')
    ensures IdleOk(s', key, h) && PoolOk(s', key)
  {
    assert IdleOk(s, key, h) && PoolOk(s, key);
    if !step.Evict? { assert CallerOk(mac, s, s.callers[step.c]); }
  }

  lemma OtherCallerStep(mac: (string, Bytes) -> Bytes, s: State, step: Step, s': State, d: nat)
    requires Inv(mac, s) && Apply(mac, s, step) == Some(s')
    requires d < |s.callers| && (step.Evict? || step.c != d)
    ensures CallerOk(mac, s', s'.callers[d])
  {
    var p := s.callers[d];
    assert CallerOk(mac, s, p);
    if !step.Evict? {
      var c := step.c;
      assert CallerOk(mac, s, s.callers[c]);
      assert Exclusive(s, if c < d then c else d, if c < d then d else c);
    }
  }

  lemma ActorStep(mac: (string, Bytes) -> Bytes, s: State, step: Step, s': State)
    requires Inv(mac, s) && Apply(mac, s, step) == Some(s') && !step.Evict?
    ensures CallerOk(mac, s', s'.callers[step.c])
  {
    var p := s.callers[step.c];
    assert CallerOk(mac, s, p);
    if step.Take? { assert IdleOk(s, p.key, step.h); }
    if step.Make? {
      assert PoolOk(s, p.key);
      assert IdleOk(s, p.key, |s.hashers|);
    }
    if step.Write? { assert [] + p.data == p.data; }
  }

  lemma StepInv(mac: (string, Bytes) -> Bytes, s: State, step: Step, s': State)
    requires Inv(mac, s) && Apply(mac, s, step) == Some(s')
    ensures Inv(mac, s')
  {
    forall c: nat, d: nat ensures Exclusive(s', c, d) { ExclusiveStep(mac, s, step, s', c, d); }
    forall key, h: nat ensures IdleOk(s', key, h) { IdleStep(mac, s, step, s', key, h); }
    forall key ensures PoolOk(s', key) { IdleStep(mac, s, step, s', key, 0); }
    forall d | 0 <= d < |s'.callers| ensures CallerOk(mac, s', s'.callers[d]) {
      if !step.Evict? && step.c == d { ActorStep(mac, s, step, s'); } else { OtherCallerStep(mac, s, step, s', d); }
    }
  }

  lemma {:induction false} RunInv(mac: (string, Bytes) -> Bytes, n: nat, steps: seq<Step>, s: State)
    requires Run(mac, Start(n), steps) == Some(s)
    ensures Inv(mac, s)
    decreases |steps|
  {
    if |steps| > 0 {
      var before := Run(mac, Start(n), steps[..|steps| - 1]).value;
      RunInv(mac, n, steps[..|steps| - 1], before);
      StepInv(mac, before, steps[|steps| - 1], s);
    }
  }

  /** In every interleaving, each finished `Compute` returned the HMAC of its own data under its own key. */
  lemma ComputeIsPure(mac: (string, Bytes) -> Bytes, n: nat, steps: seq<Step>, s: State, c: nat)
    requires Run(mac, Start(n), steps) == Some(s)
    requires c < |s.callers| && s.callers[c].Done?
    ensures s.callers[c].sum == mac(s.callers[c].key, s.callers[c].data)
  {
    RunInv(mac, n, steps, s);
    assert CallerOk(mac, s, s.callers[c]);
  }

  /** In every interleaving, a hasher in use is in no other hands and in no pool. */
  lemma HashersAreExclusive(mac: (string, Bytes) -> Bytes, n: nat, steps: seq<Step>, s: State, c: nat)
    requires Run(mac, Start(n), steps) == Some(s)
    requires c < |s.callers| && Holds(s.callers[c])
    ensures forall d :: 0 <= d < |s.callers| && d != c && Holds(s.callers[d]) ==> s.callers[d].h != s.callers[c].h
    ensures forall key :: key in s.pools ==> s.callers[c].h !in s.pools[key].idle
  {
    RunInv(mac, n, steps, s);
    var p := s.callers[c];
    assert CallerOk(mac, s, p);
    forall d | 0 <= d < |s.callers| && d != c && Holds(s.callers[d]) ensures s.callers[d].h != p.h {
      assert Exclusive(s, if c < d then c else d, if c < d then d else c);
    }
    forall key | key in s.pools ensures p.h !in s.pools[key].idle {
      assert IdleOk(s, key, p.h);
    }
  }

  // Lower-case hexadecimal text.

  const HEX_DIGITS := "0123456789abcdef"

  /** `hex.EncodeToString`. */
  function Hex(b: Bytes): string {
    if |b| == 0 then "" else [HEX_DIGITS[b[0] / 16], HEX_DIGITS[b[0] % 16]] + Hex(b[1..])
  }

  /** The value of a lower-case hexadecimal digit. */
  function Digit(c: char): Option<nat> {
    if '0' <= c <= '9' then Some((c - '0') as nat)
    else if 'a' <= c <= 'f' then Some((c - 'a') as nat + 10)
    else None
  }

  /** The bytes that a text is the lower-case hexadecimal form of, if any. */
  function Unhex(s: string): Option<Bytes> {
    if |s| == 0 then Some([])
    else if |s| == 1 || Digit(s[0]).None? || Digit(s[1]).None? then None
    else
      var rest := Unhex(s[2..]);
      if rest.None? then None else Some([Digit(s[0]).value * 16 + Digit(s[1]).value] + rest.value)
  }

  predicate IsDigitOf(c: char, d: nat) {
    c as int == if d < 10 then '0' as int + d else 'a' as int + d - 10
  }

  /** Two lower-case digits for each byte, the high one first. */
  lemma {:induction false} HexMeans(b: Bytes, i: nat)
    requires i < |b|
    ensures |Hex(b)| == 2 * |b|
    ensures IsDigitOf(Hex(b)[2 * i], b[i] / 16) && IsDigitOf(Hex(b)[2 * i + 1], b[i] % 16)
    decreases |b|
  {
    DigitMeans(b[0] / 16);
    DigitMeans(b[0] % 16);
    assert Hex(b) == [HEX_DIGITS[b[0] / 16], HEX_DIGITS[b[0] % 16]] + Hex(b[1..]);
    if |b| > 1 {
      HexMeans(b[1..], if i == 0 then 0 else i - 1);
    } else {
      assert Hex(b[1..]) == "";
    }
  }

  lemma DigitMeans(d: nat)
    requires d < 16
    ensures IsDigitOf(HEX_DIGITS[d], d)
  {
  }

  lemma DigitOf(i: nat, c: char)
    requires i < 16
    ensures HEX_DIGITS[i] == c <==> Digit(c) == Some(i)
  {
  }

  lemma {:induction false} UnhexIff(b: Bytes, s: string)
    ensures Hex(b) == s <==> Unhex(s) == Some(b)
    decreases |b|
  {
    if |b| > 0 {
      if |s| >= 2 {
        DigitOf(b[0] / 16, s[0]);
        DigitOf(b[0] % 16, s[1]);
        UnhexIff(b[1..], s[2..]);
        assert s == [s[0], s[1]] + s[2..] && b == [b[0]] + b[1..];
        HexParts(b, s);
        UnhexParts(b, s);
      }
    }
  }

  lemma HexParts(b: Bytes, s: string)
    requires |b| > 0 && |s| >= 2
    ensures Hex(b) == s <==> HEX_DIGITS[b[0] / 16] == s[0] && HEX_DIGITS[b[0] % 16] == s[1] && Hex(b[1..]) == s[2..]
  {
    TwoAndRest(HEX_DIGITS[b[0] / 16], HEX_DIGITS[b[0] % 16], Hex(b[1..]), s);
  }

  lemma TwoAndRest(x: char, y: char, rest: string, s: string)
    requires |s| >= 2
    ensures [x, y] + rest == s <==> x == s[0] && y == s[1] && rest == s[2..]
  {
    assert s == [s[0], s[1]] + s[2..];
    assert ([x, y] + rest)[2..] == rest;
  }

  lemma UnhexParts(b: Bytes, s: string)
    requires |b| > 0 && |s| >= 2
    ensures Unhex(s) == Some(b) <==>
      Digit(s[0]) == Some(b[0] / 16) && Digit(s[1]) == Some(b[0] % 16) && Unhex(s[2..]) == Some(b[1..])
  {
    assert b == [b[0]] + b[1..];
  }

  /**
   `Verify` compares what its own `Compute` returned with any text. In every interleaving it accepts exactly the
   lower-case hexadecimal form of the MAC of its data under its key, and nothing undecodable.
   */
  lemma VerifyAcceptsIff(mac: (string, Bytes) -> Bytes, n: nat, steps: seq<Step>, s: State, c: nat, expected: string)
    requires Run(mac, Start(n), steps) == Some(s)
    requires c < |s.callers| && s.callers[c].Done?
    ensures Hex(s.callers[c].sum) == expected <==>
      Unhex(expected) == Some(mac(s.callers[c].key, s.callers[c].data))
  {
    ComputeIsPure(mac, n, steps, s, c);
    UnhexIff(s.callers[c].sum, expected);
  }

  /** Hexadecimal text determines the bytes. */
  lemma HexInjective(a: Bytes, b: Bytes)
    requires Hex(a) == Hex(b)
    ensures a == b
  {
    UnhexIff(a, Hex(b));
    UnhexIff(b, Hex(b));
  }

  // What pooling is for.

  /** A hasher that was made is in a caller's hands, in the pool of its key, or was garbage collected. */
  ghost predicate Accounted(s: State, steps: seq<Step>, h: nat) {
    h < |s.hashers| ==>
      || (exists c :: 0 <= c < |s.callers| && Holds(s.callers[c]) && s.callers[c].h == h)
      || (s.hashers[h].key in s.pools && h in s.pools[s.hashers[h].key].idle)
      || Evict(s.hashers[h].key, h) in steps
  }

  lemma HeldStep(mac: (string, Bytes) -> Bytes, s: State, steps: seq<Step>, step: Step, s': State, c: nat)
    requires Inv(mac, s) && Apply(mac, s, step) == Some(s') && c < |s.callers| && Holds(s.callers[c])
    ensures Accounted(s', steps + [step], s.callers[c].h)
  {
    var p := s.callers[c];
    assert CallerOk(mac, s, p);
    if step.Put? && step.c == c {
      assert s'.hashers[p.h].key == p.key && p.h in s'.pools[p.key].idle;
    } else {
      assert Holds(s'.callers[c]) && s'.callers[c].h == p.h;
    }
  }

  lemma IdleHasherStep(mac: (string, Bytes) -> Bytes, s: State, steps: seq<Step>, step: Step, s': State, key: string,
      h: nat)
    requires Inv(mac, s) && Apply(mac, s, step) == Some(s') && key in s.pools && h in s.pools[key].idle
    ensures Accounted(s', steps + [step], h)
  {
    assert IdleOk(s, key, h);
    if step == Evict(key, h) {
      assert s'.hashers == s.hashers;
    } else if step.Take? && step.h == h {
      assert Holds(s'.callers[step.c]) && s'.callers[step.c].h == h;
    } else {
      if !step.Evict? { assert CallerOk(mac, s, s.callers[step.c]); }
      assert key in s'.pools && h in s'.pools[key].idle && s'.hashers[h].key == key;
    }
  }

  lemma KeysStay(mac: (string, Bytes) -> Bytes, s: State, step: Step, s': State, h: nat)
    requires Apply(mac, s, step) == Some(s') && h < |s.hashers|
    ensures h < |s'.hashers| && s'.hashers[h].key == s.hashers[h].key
  {
  }

  lemma NewHasherStep(mac: (string, Bytes) -> Bytes, s: State, step: Step, s': State, h: nat)
    requires Apply(mac, s, step) == Some(s') && |s.hashers| <= h < |s'.hashers|
    ensures !step.Evict? && step.c < |s'.callers| && Holds(s'.callers[step.c]) && s'.callers[step.c].h == h
  {
  }

  lemma AccountedStep(mac: (string, Bytes) -> Bytes, s: State, steps: seq<Step>, step: Step, s': State, h: nat)
    requires Inv(mac, s) && Accounted(s, steps, h) && Apply(mac, s, step) == Some(s')
    ensures Accounted(s', steps + [step], h)
  {
    if |s.hashers| <= h < |s'.hashers| {
      NewHasherStep(mac, s, step, s', h);
    } else if h < |s.hashers| {
      KeysStay(mac, s, step, s', h);
      var key := s.hashers[h].key;
      if c :| 0 <= c < |s.callers| && Holds(s.callers[c]) && s.callers[c].h == h {
        HeldStep(mac, s, steps, step, s', c);
      } else if key in s.pools && h in s.pools[key].idle {
        IdleHasherStep(mac, s, steps, step, s', key, h);
      }
    }
  }

  /** In every interleaving no hasher leaks: one in nobody's hands can be taken again until it is garbage collected. */
  lemma {:induction false} NothingLeaks(mac: (string, Bytes) -> Bytes, n: nat, steps: seq<Step>, s: State, h: nat)
    requires Run(mac, Start(n), steps) == Some(s)
    ensures Accounted(s, steps, h)
    decreases |steps|
  {
    if |steps| > 0 {
      var last := |steps| - 1;
      var before := Run(mac, Start(n), steps[..last]).value;
      NothingLeaks(mac, n, steps[..last], before, h);
      RunInv(mac, n, steps[..last], before);
      AccountedStep(mac, before, steps[..last], steps[last], s, h);
      assert steps == steps[..last] + [steps[last]];
    }
  }

  /** In every interleaving, a call that has begun can go on, whatever the others do. */
  lemma NeverStuck(mac: (string, Bytes) -> Bytes, n: nat, steps: seq<Step>, s: State, c: nat) returns (step: Step)
    requires Run(mac, Start(n), steps) == Some(s)
    requires c < |s.callers| && !s.callers[c].Idle? && !s.callers[c].Done?
    ensures !step.Evict? && step.c == c && !step.Call? && Apply(mac, s, step).Some?
  {
    RunInv(mac, n, steps, s);
    step := NextStep(s.callers[c], c);
    CanGoOn(mac, s, c);
  }

  /** What a call in progress does next, when it makes its own hasher. */
  function NextStep(p: Point, c: nat): Step
    requires !p.Idle? && !p.Done?
  {
    match p
    case Entered(_, _) => Load(c)
    case Missed(_, _) => LoadOrStore(c)
    case Found(_, _) => Make(c)
    case Fresh(_, _, _) => Write(c)
    case Written(_, _, _) => Sum(c)
    case Summed(_, _, _, _) => Reset(c)
    case Rinsed(_, _, _, _) => Put(c)
  }

  lemma CanGoOn(mac: (string, Bytes) -> Bytes, s: State, c: nat)
    requires c < |s.callers| && CallerOk(mac, s, s.callers[c]) && !s.callers[c].Idle? && !s.callers[c].Done?
    ensures Apply(mac, s, NextStep(s.callers[c], c)).Some?
  {
  }

  /** One goroutine and one hasher. */
  function One(key: string, buf: Bytes, idle: multiset<nat>, p: Point): State {
    State(map[key := Pool(key, idle)], [Hasher(key, buf)], [p])
  }

  lemma Play(mac: (string, Bytes) -> Bytes, steps: seq<Step>, s: State, step: Step, s': State)
      returns (steps': seq<Step>)
    requires Run(mac, Start(1), steps) == Some(s) && Apply(mac, s, step) == Some(s')
    ensures Run(mac, Start(1), steps') == Some(s')
  {
    steps' := steps + [step];
    assert steps'[..|steps|] == steps;
  }

  lemma AtOne(pools: map<string, Pool>, hashers: seq<Hasher>, p: Point, q: Point)
    ensures At(State(pools, hashers, [p]), 0, q) == State(pools, hashers, [q])
  {
    assert [p][0 := q] == [q];
  }

  lemma SetOne(key: string, buf: Bytes, idle: multiset<nat>, p: Point, buf': Bytes, idle': multiset<nat>)
    ensures SetHasher(One(key, buf, idle, p), 0, Hasher(key, buf')) == One(key, buf', idle, p)
    ensures SetIdle(One(key, buf, idle, p), key, idle') == One(key, buf, idle', p)
  {
    assert [Hasher(key, buf)][0 := Hasher(key, buf')] == [Hasher(key, buf')];
    assert map[key := Pool(key, idle)][key := Pool(key, idle')] == map[key := Pool(key, idle')];
  }

  lemma ApplyUse(mac: (string, Bytes) -> Bytes, data: Bytes, key: string)
    ensures Apply(mac, One(key, [], multiset{}, Fresh(data, key, 0)), Write(0)) ==
      Some(One(key, data, multiset{}, Written(data, key, 0)))
    ensures Apply(mac, One(key, data, multiset{}, Written(data, key, 0)), Sum(0)) ==
      Some(One(key, data, multiset{}, Summed(data, key, 0, mac(key, data))))
  {
    var pools := map[key := Pool(key, multiset{})];
    var taken, written := Fresh(data, key, 0), Written(data, key, 0);
    assert [] + data == data;
    SetOne(key, [], multiset{}, taken, data, multiset{});
    AtOne(pools, [Hasher(key, data)], taken, written);
    AtOne(pools, [Hasher(key, data)], written, Summed(data, key, 0, mac(key, data)));
  }

  lemma ApplyReturn(mac: (string, Bytes) -> Bytes, data: Bytes, key: string, sum: Bytes)
    ensures Apply(mac, One(key, data, multiset{}, Summed(data, key, 0, sum)), Reset(0)) ==
      Some(One(key, [], multiset{}, Rinsed(data, key, 0, sum)))
    ensures Apply(mac, One(key, [], multiset{}, Rinsed(data, key, 0, sum)), Put(0)) ==
      Some(One(key, [], multiset{0}, Done(data, key, sum)))
  {
    var summed, rinsed := Summed(data, key, 0, sum), Rinsed(data, key, 0, sum);
    SetOne(key, data, multiset{}, summed, [], multiset{});
    AtOne(map[key := Pool(key, multiset{})], [Hasher(key, [])], summed, rinsed);
    assert multiset{} + multiset{0} == multiset{0};
    SetOne(key, [], multiset{}, rinsed, [], multiset{0});
    AtOne(map[key := Pool(key, multiset{0})], [Hasher(key, [])], rinsed, Done(data, key, sum));
  }

  lemma ApplyTake(mac: (string, Bytes) -> Bytes, first: Bytes, data: Bytes, key: string, sum: Bytes)
    ensures Apply(mac, One(key, [], multiset{0}, Done(first, key, sum)), Call(0, data, key)) ==
      Some(One(key, [], multiset{0}, Entered(data, key)))
    ensures Apply(mac, One(key, [], multiset{0}, Entered(data, key)), Load(0)) ==
      Some(One(key, [], multiset{0}, Found(data, key)))
    ensures Apply(mac, One(key, [], multiset{0}, Found(data, key)), Take(0, 0)) ==
      Some(One(key, [], multiset{}, Fresh(data, key, 0)))
  {
    var pools, hashers := map[key := Pool(key, multiset{0})], [Hasher(key, [])];
    AtOne(pools, hashers, Done(first, key, sum), Entered(data, key));
    AtOne(pools, hashers, Entered(data, key), Found(data, key));
    assert multiset{0} - multiset{0} == multiset{};
    SetOne(key, [], multiset{0}, Found(data, key), [], multiset{});
    AtOne(map[key := Pool(key, multiset{})], hashers, Found(data, key), Fresh(data, key, 0));
  }

  /** From a hasher in hand to the end of the call. */
  lemma PlayUse(mac: (string, Bytes) -> Bytes, steps: seq<Step>, data: Bytes, key: string) returns (steps': seq<Step>)
    requires Run(mac, Start(1), steps) == Some(One(key, [], multiset{}, Fresh(data, key, 0)))
    ensures Run(mac, Start(1), steps') == Some(One(key, [], multiset{0}, Done(data, key, mac(key, data))))
  {
    var sum := mac(key, data);
    ApplyUse(mac, data, key);
    ApplyReturn(mac, data, key, sum);
    var written, summed := Written(data, key, 0), Summed(data, key, 0, sum);
    steps' := Play(mac, steps, One(key, [], multiset{}, Fresh(data, key, 0)), Write(0),
      One(key, data, multiset{}, written));
    steps' := Play(mac, steps', One(key, data, multiset{}, written), Sum(0), One(key, data, multiset{}, summed));
    var rinsed := One(key, [], multiset{}, Rinsed(data, key, 0, sum));
    steps' := Play(mac, steps', One(key, data, multiset{}, summed), Reset(0), rinsed);
    steps' := Play(mac, steps', rinsed, Put(0), One(key, [], multiset{0}, Done(data, key, sum)));
  }

  lemma ApplyMake(mac: (string, Bytes) -> Bytes, data: Bytes, key: string)
    ensures Apply(mac, Start(1), Call(0, data, key)) == Some(State(map[], [], [Entered(data, key)]))
    ensures Apply(mac, State(map[], [], [Entered(data, key)]), Load(0)) == Some(State(map[], [], [Missed(data, key)]))
    ensures Apply(mac, State(map[], [], [Missed(data, key)]), LoadOrStore(0)) ==
      Some(State(map[key := Pool(key, multiset{})], [], [Found(data, key)]))
    ensures Apply(mac, State(map[key := Pool(key, multiset{})], [], [Found(data, key)]), Make(0)) ==
      Some(One(key, [], multiset{}, Fresh(data, key, 0)))
  {
    var pools := map[key := Pool(key, multiset{})];
    assert Start(1).callers == [Idle];
    AtOne(map[], [], Idle, Entered(data, key));
    AtOne(map[], [], Entered(data, key), Missed(data, key));
    AtOne(pools, [], Missed(data, key), Found(data, key));
    assert [] + [Hasher(key, [])] == [Hasher(key, [])];
    AtOne(pools, [Hasher(key, [])], Found(data, key), Fresh(data, key, 0));
  }

  lemma PlayMake(mac: (string, Bytes) -> Bytes, data: Bytes, key: string) returns (steps: seq<Step>)
    ensures Run(mac, Start(1), steps) == Some(One(key, [], multiset{}, Fresh(data, key, 0)))
  {
    ApplyMake(mac, data, key);
    var entered, missed := State(map[], [], [Entered(data, key)]), State(map[], [], [Missed(data, key)]);
    var found := State(map[key := Pool(key, multiset{})], [], [Found(data, key)]);
    steps := Play(mac, [], Start(1), Call(0, data, key), entered);
    steps := Play(mac, steps, entered, Load(0), missed);
    steps := Play(mac, steps, missed, LoadOrStore(0), found);
    steps := Play(mac, steps, found, Make(0), One(key, [], multiset{}, Fresh(data, key, 0)));
  }

  /** A second `Compute` with the same key can use the hasher of the first. */
  lemma SecondComputeReuses(mac: (string, Bytes) -> Bytes, first: Bytes, second: Bytes, key: string)
      returns (steps: seq<Step>, s: State)
    ensures Run(mac, Start(1), steps) == Some(s)
    ensures s.callers == [Done(second, key, mac(key, second))] && |s.hashers| == 1
  {
    var sum := mac(key, first);
    steps := PlayMake(mac, first, key);
    steps := PlayUse(mac, steps, first, key);
    ApplyTake(mac, first, second, key, sum);
    var entered := One(key, [], multiset{0}, Entered(second, key));
    var found := One(key, [], multiset{0}, Found(second, key));
    steps := Play(mac, steps, One(key, [], multiset{0}, Done(first, key, sum)), Call(0, second, key), entered);
    steps := Play(mac, steps, entered, Load(0), found);
    steps := Play(mac, steps, found, Take(0, 0), One(key, [], multiset{}, Fresh(second, key, 0)));
    steps := PlayUse(mac, steps, second, key);
    s := One(key, [], multiset{0}, Done(second, key, mac(key, second)));
  }
}
