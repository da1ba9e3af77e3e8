/**
 The response writers. A handler is the list of calls it makes on its `http.ResponseWriter`; `hash.Middleware` buffers
 and signs what it writes, `gzip.Middleware` compresses it. gzip's stream format and HMAC are functions.
 */
module Response {
  import opened Wrappers
  import opened Bytes

  /** Header names are in canonical form; an absent header reads as "". */
  type Headers = map<string, string>

  function Get(h: Headers, name: string): string {
    if name in h then h[name] else ""
  }

  const CONTENT_TYPE := "Content-Type"
  const CONTENT_ENCODING := "Content-Encoding"
  const CONTENT_LENGTH := "Content-Length"
  const HASH_HEADER := "HashSHA256"

  /** One call of a handler on its writer or on the writer's header map. */
  datatype Op =
    | SetHeader(name: string, value: string)
    | DelHeader(name: string)
    | WriteHeader(code: int)
    | Write(data: Bytes)

  predicate Settles(op: Op) {
    op.WriteHeader? || op.Write?
  }

  // The writer of `net/http`.

  datatype Head = Head(status: int, headers: Headers)

  /** The header map stays live; `sent` is the status and the snapshot that the client gets. */
  datatype Net = Net(live: Headers, sent: Option<Head>, body: Bytes)

  const STATUS_OK := 200
  const UNTOUCHED := Net(map[], None, [])

  function EditHeader(n: Net, op: Op): Net {
    if op.SetHeader? then n.(live := n.live[op.name := op.value])
    else if op.DelHeader? then n.(live := n.live - {op.name})
    else n
  }

  /** The first status wins. */
  function Commit(n: Net, code: int): Net {
    if n.sent.Some? then n else n.(sent := Some(Head(code, n.live)))
  }

  /** A write with no status yet sends 200. */
  function Append(n: Net, data: Bytes): Net {
    Commit(n, STATUS_OK).(body := n.body + data)
  }

  function NetStep(n: Net, op: Op): Net {
    if op.WriteHeader? then Commit(n, op.code)
    else if op.Write? then Append(n, op.data)
    else EditHeader(n, op)
  }

  function NetRun(n: Net, script: seq<Op>): Net {
    if |script| == 0 then n else NetStep(NetRun(n, script[..|script| - 1]), script[|script| - 1])
  }

  /** What the client gets once the handler returns. */
  datatype Answer = Answer(status: int, headers: Headers, body: Bytes)

  function Finish(n: Net): Answer {
    var head := Commit(n, STATUS_OK).sent.value;
    Answer(head.status, head.headers, n.body)
  }

  /** The answer of a handler with no middleware around it. */
  function Bare(script: seq<Op>): Answer {
    Finish(NetRun(UNTOUCHED, script))
  }

  // The gzip layer.

  /**
   `emit(written, data)` is what a `gzip.Writer` that has been given `written` sends on when given `data`; `finish` is
   what `Close` sends.
   */
  datatype Codec = Codec(
    emit: (seq<Bytes>, Bytes) -> Bytes,
    finish: seq<Bytes> -> Bytes,
    inflate: Bytes -> Option<Bytes>,
    hmacHex: (string, Bytes) -> string)

  function Emitted(c: Codec, chunks: seq<Bytes>): Bytes {
    if |chunks| == 0 then []
    else
      var last := |chunks| - 1;
      Emitted(c, chunks[..last]) + c.emit(chunks[..last], chunks[last])
  }

  function Flatten(chunks: seq<Bytes>): Bytes {
    if |chunks| == 0 then [] else Flatten(chunks[..|chunks| - 1]) + chunks[|chunks| - 1]
  }

  /** The stream's own header leaves with the first write, its trailer with `Close`, and the whole decodes. */
  ghost predicate Lawful(c: Codec) {
    && (forall data :: c.emit([], data) != [])
    && (forall chunks :: c.finish(chunks) != [])
    && (forall chunks :: c.inflate(Emitted(c, chunks) + c.finish(chunks)) == Some(Flatten(chunks)))
  }

  /** `gzipWriter`: `stream` is what its `gzip.Writer`, if it has one, was given. */
  datatype Zip = Zip(started: bool, stream: Option<seq<Bytes>>)

  /** A `net/http` writer with or without a gzip layer on it. */
  datatype View = View(net: Net, zip: Option<Zip>)

  predicate Compresses(h: Headers) {
    var contentType := Get(h, CONTENT_TYPE);
    "application/json" <= contentType || "text/html" <= contentType
  }

  function Encoded(h: Headers): Headers {
    h[CONTENT_ENCODING := "gzip"] - {CONTENT_LENGTH}
  }

  function Decide(v: View): View {
    if v.zip.None? || v.zip.value.started then v
    else if Compresses(v.net.live) then View(v.net.(live := Encoded(v.net.live)), Some(Zip(true, Some([]))))
    else v.(zip := Some(v.zip.value.(started := true)))
  }

  function Send(n: Net, data: Bytes): Net {
    if data == [] then n else Append(n, data)
  }

  function Step(c: Codec, v: View, op: Op): View {
    if Settles(op) then
      var d := Decide(v);
      if op.Write? && d.zip.Some? && d.zip.value.stream.Some? then
        var written := d.zip.value.stream.value;
        View(Send(d.net, c.emit(written, op.data)), Some(Zip(true, Some(written + [op.data]))))
      else d.(net := NetStep(d.net, op))
    else v.(net := EditHeader(v.net, op))
  }

  function Run(c: Codec, v: View, script: seq<Op>): View {
    if |script| == 0 then v else Step(c, Run(c, v, script[..|script| - 1]), script[|script| - 1])
  }

  function Closed(c: Codec, v: View): View {
    if v.zip.None? || v.zip.value.stream.None? then v
    else View(Send(v.net, c.finish(v.zip.value.stream.value)), Some(v.zip.value.(stream := None)))
  }

  // The signing layer.

  /** `hashResponseWriter` on a writer: nothing of body or status goes through before the handler returns. */
  datatype Held = Held(under: View, buf: Bytes, statusCode: int, wroteHeader: bool)

  function HoldStep(h: Held, op: Op): Held {
    if op.WriteHeader? then h.(statusCode := op.code, wroteHeader := true)
    else if op.Write? then h.(buf := h.buf + op.data)
    else h.(under := h.under.(net := EditHeader(h.under.net, op)))
  }

  function HoldRun(h: Held, script: seq<Op>): Held {
    if |script| == 0 then h else HoldStep(HoldRun(h, script[..|script| - 1]), script[|script| - 1])
  }

  /** What `hash.Middleware` does once the handler has returned. */
  function Release(c: Codec, key: string, h: Held): View {
    var signed := if h.buf != [] then Step(c, h.under, SetHeader(HASH_HEADER, c.hmacHex(key, h.buf))) else h.under;
    var headed := if h.wroteHeader then Step(c, signed, WriteHeader(h.statusCode)) else signed;
    if h.buf != [] then Step(c, headed, Write(h.buf)) else headed
  }

  function Hold(v: View): Held {
    Held(v, [], STATUS_OK, false)
  }

  /** The handler under `hash.Middleware`, transparent without a key. */
  function Signed(c: Codec, key: string, v: View, script: seq<Op>): View {
    if key == "" then Run(c, v, script) else Release(c, key, HoldRun(Hold(v), script))
  }

  function Opened(accepts: bool): View {
    View(UNTOUCHED, if accepts then Some(Zip(false, None)) else None)
  }

  /** The handler under `gzip(hash(handler))`; `accepts` is whether the client accepts gzip. */
  function Served(c: Codec, key: string, accepts: bool, script: seq<Op>): Answer {
    Finish(Closed(c, Signed(c, key, Opened(accepts), script)).net)
  }

  /** The body as the client reads it. */
  function Decoded(c: Codec, a: Answer): Option<Bytes> {
    if Get(a.headers, CONTENT_ENCODING) == "gzip" then c.inflate(a.body) else Some(a.body)
  }

  // The same as objects.

  class NetWriter {
    var live: Headers
    var sent: Option<Head>
    var body: Bytes

    function State(): Net
      reads this
    {
      Net(live, sent, body)
    }

    constructor ()
      ensures State() == UNTOUCHED
    {
      live, sent, body := map[], None, [];
    }

    method Edit(op: Op)
      requires !Settles(op)
      modifies this
      ensures State() == EditHeader(old(State()), op)
    {
      if op.SetHeader? { live := live[op.name := op.value]; } else { live := live - {op.name}; }
    }

    method WriteHeader(code: int)
      modifies this
      ensures State() == Commit(old(State()), code)
    {
      if sent.None? { sent := Some(Head(code, live)); }
    }

    method Write(data: Bytes)
      modifies this
      ensures State() == Append(old(State()), data)
    {
      WriteHeader(STATUS_OK);
      body := body + data;
    }
  }

  class GzipWriter {
    const w: NetWriter
    var started: bool
    var gz: Option<seq<Bytes>>

    function State(): View
      reads this, w
    {
      View(w.State(), Some(Zip(started, gz)))
    }

    constructor (w: NetWriter)
      ensures this.w == w && State() == View(w.State(), Some(Zip(false, None)))
    {
      this.w := w;
      started, gz := false, None;
    }

    method DecideOnce()
      modifies this, w
      ensures State() == Decide(old(State()))
    {
      if started { return; }
      started := true;
      var contentType := Get(w.live, CONTENT_TYPE);
      if "application/json" <= contentType || "text/html" <= contentType {
        w.Edit(SetHeader(CONTENT_ENCODING, "gzip"));
        w.Edit(DelHeader(CONTENT_LENGTH));
        gz := Some([]);
      }
    }

    method WriteHeader(c: Codec, code: int)
      modifies this, w
      ensures State() == Step(c, old(State()), Op.WriteHeader(code))
    {
      DecideOnce();
      w.WriteHeader(code);
    }

    method Write(c: Codec, data: Bytes)
      modifies this, w
      ensures State() == Step(c, old(State()), Op.Write(data))
    {
      DecideOnce();
      if gz.Some? {
        var out := c.emit(gz.value, data);
        if out != [] { w.Write(out); }
        gz := Some(gz.value + [data]);
      } else {
        w.Write(data);
      }
    }

    method Close(c: Codec)
      modifies this, w
      ensures State() == Closed(c, old(State()))
    {
      if gz.None? { return; }
      var out := c.finish(gz.value);
      if out != [] { w.Write(out); }
      gz := None;
    }
  }

  /** Go's embedded `http.ResponseWriter`: whichever writer lies below. */
  datatype Writer = Plain(n: NetWriter) | Zipped(g: GzipWriter) {
    function Objects(): set<object> {
      if Plain? then {n} else {g, g.w}
    }

    function State(): View
      reads Objects()
    {
      if Plain? then View(n.State(), None) else g.State()
    }

    method Do(c: Codec, op: Op)
      modifies Objects()
      ensures State() == Step(c, old(State()), op)
    {
      match op
      case SetHeader(_, _) => if Plain? { n.Edit(op); } else { g.w.Edit(op); }
      case DelHeader(_) => if Plain? { n.Edit(op); } else { g.w.Edit(op); }
      case WriteHeader(code) => if Plain? { n.WriteHeader(code); } else { g.WriteHeader(c, code); }
      case Write(data) => if Plain? { n.Write(data); } else { g.Write(c, data); }
    }

    /** The handler, called with this writer. */
    method Handle(c: Codec, script: seq<Op>)
      modifies Objects()
      ensures State() == Run(c, old(State()), script)
    {
      for i := 0 to |script|
        invariant State() == Run(c, old(State()), script[..i])
      {
        assert script[..i + 1][..i] == script[..i];
        Do(c, script[i]);
      }
      assert script[..|script|] == script;
    }
  }

  class HashWriter {
    const w: Writer
    var buf: Bytes
    var statusCode: int
    var wroteHeader: bool

    function State(): Held
      reads this, w.Objects()
    {
      Held(w.State(), buf, statusCode, wroteHeader)
    }

    constructor (w: Writer)
      ensures this.w == w && State() == Hold(w.State())
    {
      this.w := w;
      buf, statusCode, wroteHeader := [], STATUS_OK, false;
    }

    method WriteHeader(code: int)
      modifies this
      ensures State() == HoldStep(old(State()), Op.WriteHeader(code))
    {
      statusCode := code;
      wroteHeader := true;
    }

    method Write(data: Bytes)
      modifies this
      ensures State() == HoldStep(old(State()), Op.Write(data))
    {
      buf := buf + data;
    }

    method Handle(c: Codec, script: seq<Op>)
      modifies this, w.Objects()
      ensures State() == HoldRun(old(State()), script)
    {
      for i := 0 to |script|
        invariant State() == HoldRun(old(State()), script[..i])
      {
        assert script[..i + 1][..i] == script[..i];
        if script[i].WriteHeader? {
          WriteHeader(script[i].code);
        } else if script[i].Write? {
          Write(script[i].data);
        } else {
          w.Do(c, script[i]);
        }
      }
      assert script[..|script|] == script;
    }
  }

  /** `hash.Middleware` around the handler, from the verified request on. */
  method HashMiddleware(c: Codec, key: string, w: Writer, script: seq<Op>)
    modifies w.Objects()
    ensures w.State() == Signed(c, key, old(w.State()), script)
  {
    if key == "" {
      w.Handle(c, script);
      return;
    }
    var hw := new HashWriter(w);
    hw.Handle(c, script);
    var respBody := hw.buf;
    if |respBody| > 0 { w.Do(c, SetHeader(HASH_HEADER, c.hmacHex(key, respBody))); }
    if hw.wroteHeader { w.Do(c, Op.WriteHeader(hw.statusCode)); }
    if |respBody| > 0 { w.Do(c, Op.Write(respBody)); }
  }

  /** The response half of `gzip.Middleware` around it. */
  method Serve(c: Codec, key: string, accepts: bool, script: seq<Op>) returns (a: Answer)
    ensures a == Served(c, key, accepts, script)
  {
    var n := new NetWriter();
    if accepts {
      var g := new GzipWriter(n);
      HashMiddleware(c, key, Zipped(g), script);
      g.Close(c);
    } else {
      HashMiddleware(c, key, Plain(n), script);
    }
    n.WriteHeader(STATUS_OK);
    a := Answer(n.sent.value.status, n.sent.value.headers, n.body);
  }

  // Transparency, first of the gzip layer alone.

  predicate Sets(script: seq<Op>, name: string) {
    exists i :: 0 <= i < |script| && !Settles(script[i]) && script[i].name == name
  }

  /** The writer under the gzip layer, against the writer the handler would have had. */
  predicate Mirrors(c: Codec, v: View, n: Net) {
    && v.zip.Some?
    && (!v.zip.value.started ==> v.zip.value.stream.None? && v.net == n && n.sent.None? && n.body == [])
    && (v.zip.value.started ==>
          && n.sent.Some? && v.net.sent.Some? && v.net.sent.value.status == n.sent.value.status
          && (v.zip.value.stream.Some? <==> Compresses(n.sent.value.headers))
          && if v.zip.value.stream.None? then v.net == n
             else
               && v.net.sent.value.headers == Encoded(n.sent.value.headers)
               && v.net.body == Emitted(c, v.zip.value.stream.value)
               && n.body == Flatten(v.zip.value.stream.value))
  }

  lemma MirrorsStep(c: Codec, v: View, n: Net, op: Op)
    requires Lawful(c) && Mirrors(c, v, n)
    ensures Mirrors(c, Step(c, v, op), NetStep(n, op))
  {
    var zip := v.zip.value;
    if op.Write? && (zip.stream.Some? || (!zip.started && Compresses(n.live))) {
      var chunks := if zip.started then zip.stream.value else [];
      assert (chunks + [op.data])[..|chunks|] == chunks;
      assert Emitted(c, chunks + [op.data]) == Emitted(c, chunks) + c.emit(chunks, op.data);
      assert Flatten(chunks + [op.data]) == Flatten(chunks) + op.data;
      assert !zip.started ==> c.emit([], op.data) != [];
      assert Emitted(c, chunks) + [] == Emitted(c, chunks);
    }
  }

  lemma {:induction false} MirrorsRun(c: Codec, script: seq<Op>)
    requires Lawful(c)
    ensures Mirrors(c, Run(c, Opened(true), script), NetRun(UNTOUCHED, script))
  {
    if |script| > 0 {
      var last := |script| - 1;
      MirrorsRun(c, script[..last]);
      MirrorsStep(c, Run(c, Opened(true), script[..last]), NetRun(UNTOUCHED, script[..last]), script[last]);
    }
  }

  lemma {:induction false} Unmentioned(script: seq<Op>, name: string)
    requires !Sets(script, name)
    ensures var n := NetRun(UNTOUCHED, script); name !in n.live && (n.sent.Some? ==> name !in n.sent.value.headers)
  {
    if |script| > 0 {
      var last := |script| - 1;
      assert forall i :: 0 <= i < last ==> script[..last][i] == script[i];
      Unmentioned(script[..last], name);
    }
  }

  lemma {:induction false} PlainRun(c: Codec, script: seq<Op>)
    ensures Run(c, Opened(false), script) == View(NetRun(UNTOUCHED, script), None)
  {
    if |script| > 0 { PlainRun(c, script[..|script| - 1]); }
  }

  predicate Responds(script: seq<Op>) {
    exists i :: 0 <= i < |script| && Settles(script[i])
  }

  lemma {:induction false} RespondsMeans(script: seq<Op>)
    ensures Responds(script) <==> NetRun(UNTOUCHED, script).sent.Some?
  {
    if |script| > 0 {
      var last := |script| - 1;
      var before := script[..last];
      assert forall i :: 0 <= i < last ==> before[i] == script[i];
      RespondsMeans(before);
      if Responds(script) && !Settles(script[last]) {
        var i :| 0 <= i < |script| && Settles(script[i]);
        assert Settles(before[i]);
      }
    }
  }

  /** What the gzip layer is: the bare answer, or its compression with two headers changed. */
  lemma GzipAnswer(c: Codec, accepts: bool, script: seq<Op>)
    requires Lawful(c)
    ensures var a, bare := Finish(Closed(c, Run(c, Opened(accepts), script)).net), Bare(script);
      if accepts && Responds(script) && Compresses(bare.headers) then
        a.status == bare.status && a.headers == Encoded(bare.headers) && c.inflate(a.body) == Some(bare.body)
      else a == bare
  {
    RespondsMeans(script);
    if accepts {
      MirrorsRun(c, script);
      var v := Run(c, Opened(true), script);
      if v.zip.value.stream.Some? {
        var chunks := v.zip.value.stream.value;
        assert c.finish(chunks) != [];
        assert c.inflate(Emitted(c, chunks) + c.finish(chunks)) == Some(Flatten(chunks));
      }
    } else {
      PlainRun(c, script);
    }
  }

  // The signing layer turns one script into another.

  function Edits(script: seq<Op>): seq<Op> {
    if |script| == 0 then []
    else
      var last := |script| - 1;
      Edits(script[..last]) + if Settles(script[last]) then [] else [script[last]]
  }

  function Written(script: seq<Op>): Bytes {
    if |script| == 0 then []
    else
      var last := |script| - 1;
      Written(script[..last]) + if script[last].Write? then script[last].data else []
  }

  function LastCode(script: seq<Op>): Option<int> {
    if |script| == 0 then None
    else
      var last := |script| - 1;
      if script[last].WriteHeader? then Some(script[last].code) else LastCode(script[..last])
  }

  /** All header edits, then the signature, then the last status, then the whole body. */
  function Flushed(c: Codec, key: string, script: seq<Op>): seq<Op> {
    var body, code := Written(script), LastCode(script);
    Edits(script)
      + (if body != [] then [SetHeader(HASH_HEADER, c.hmacHex(key, body))] else [])
      + (if code.Some? then [WriteHeader(code.value)] else [])
      + (if body != [] then [Write(body)] else [])
  }

  lemma RunSnoc(c: Codec, v: View, script: seq<Op>, op: Op)
    ensures Run(c, v, script + [op]) == Step(c, Run(c, v, script), op)
  {
  }

  /** What the buffering writer has taken in from a script. */
  function HeldAfter(c: Codec, v: View, script: seq<Op>): Held {
    var code := LastCode(script);
    Held(Run(c, v, Edits(script)), Written(script), if code.Some? then code.value else STATUS_OK, code.Some?)
  }

  lemma HeldStep(c: Codec, v: View, before: seq<Op>, op: Op)
    ensures HoldStep(HeldAfter(c, v, before), op) == HeldAfter(c, v, before + [op])
  {
    PartsStep(before, op);
    if !Settles(op) { RunSnoc(c, v, Edits(before), op); }
  }

  lemma {:induction false} HoldRuns(c: Codec, v: View, script: seq<Op>)
    ensures HoldRun(Hold(v), script) == HeldAfter(c, v, script)
  {
    if |script| > 0 {
      var last := |script| - 1;
      HoldRuns(c, v, script[..last]);
      HeldStep(c, v, script[..last], script[last]);
      assert script == script[..last] + [script[last]];
    }
  }

  /** A handler under `hash.Middleware` is the flushed handler without it. */
  lemma SigningFlushes(c: Codec, key: string, v: View, script: seq<Op>)
    requires key != ""
    ensures Signed(c, key, v, script) == Run(c, v, Flushed(c, key, script))
  {
    HoldRuns(c, v, script);
    var body, code := Written(script), LastCode(script);
    var s0 := Edits(script);
    var s1 := s0 + if body != [] then [SetHeader(HASH_HEADER, c.hmacHex(key, body))] else [];
    var s2 := s1 + if code.Some? then [WriteHeader(code.value)] else [];
    var s3 := s2 + if body != [] then [Write(body)] else [];
    assert s3 == Flushed(c, key, script);
    if body != [] {
      RunSnoc(c, v, s0, SetHeader(HASH_HEADER, c.hmacHex(key, body)));
      RunSnoc(c, v, s2, Write(body));
    } else {
      assert s1 == s0 && s3 == s2;
    }
    if code.Some? { RunSnoc(c, v, s1, WriteHeader(code.value)); } else { assert s2 == s1; }
  }

  // Both layers together.

  /** The headers that no layer touches. */
  function Rest(h: Headers): Headers {
    h - {CONTENT_ENCODING, CONTENT_LENGTH, HASH_HEADER}
  }

  /** No header changes once a status or a body byte was written. */
  predicate HeadersFirst(script: seq<Op>) {
    forall i, j :: 0 <= i < j < |script| && Settles(script[i]) ==> Settles(script[j])
  }

  /** `WriteHeader` is called at most once, before anything is written. */
  predicate StatusFirst(script: seq<Op>) {
    forall i, j :: 0 <= i < j < |script| && Settles(script[i]) ==> !script[j].WriteHeader?
  }

  predicate IsLastStatus(script: seq<Op>, i: nat) {
    i < |script| && script[i].WriteHeader? && forall j :: i < j < |script| ==> !script[j].WriteHeader?
  }

  /** The last `WriteHeader`, if it comes too late, repeats the status already sent. */
  predicate StatusSettled(script: seq<Op>) {
    forall i :: 0 <= i < |script| && IsLastStatus(script, i) && Responds(script[..i]) ==>
      script[i].code == Bare(script[..i]).status
  }

  lemma HeadersDiffer()
    ensures HASH_HEADER != CONTENT_ENCODING && HASH_HEADER != CONTENT_LENGTH && CONTENT_ENCODING != CONTENT_LENGTH
    ensures CONTENT_TYPE != CONTENT_ENCODING && CONTENT_TYPE != CONTENT_LENGTH && CONTENT_TYPE != HASH_HEADER
  {
  }

  /** The bare handler taken apart: its body is what it wrote, its header map what its edits left. */
  lemma {:induction false} BareParts(script: seq<Op>)
    ensures var n := NetRun(UNTOUCHED, script);
      n.body == Written(script) && NetRun(UNTOUCHED, Edits(script)) == Net(n.live, None, [])
  {
    if |script| > 0 {
      var last := |script| - 1;
      var before, op := script[..last], script[last];
      BareParts(before);
      assert script == before + [op];
      PartsStep(before, op);
      StepParts(NetRun(UNTOUCHED, before), op);
      if !Settles(op) { NetSnoc(UNTOUCHED, Edits(before), op); }
    }
  }

  lemma StepParts(n: Net, op: Op)
    ensures NetStep(n, op).body == if op.Write? then n.body + op.data else n.body
    ensures if Settles(op) then NetStep(n, op).live == n.live
      else NetStep(Net(n.live, None, []), op) == Net(NetStep(n, op).live, None, [])
  {
  }

  lemma PartsStep(before: seq<Op>, op: Op)
    ensures Written(before + [op]) == if op.Write? then Written(before) + op.data else Written(before)
    ensures Edits(before + [op]) == if Settles(op) then Edits(before) else Edits(before) + [op]
    ensures LastCode(before + [op]) == if op.WriteHeader? then Some(op.code) else LastCode(before)
  {
  }

  function SignedHeaders(c: Codec, key: string, script: seq<Op>): Headers {
    var live, body := NetRun(UNTOUCHED, script).live, Written(script);
    if body != [] then live[HASH_HEADER := c.hmacHex(key, body)] else live
  }

  lemma NetSnoc(n: Net, script: seq<Op>, op: Op)
    ensures NetRun(n, script + [op]) == NetStep(NetRun(n, script), op)
  {
  }

  /** The writer after a flushed script, part by part. */
  function AfterFlush(headers: Headers, code: Option<int>, body: Bytes): Net {
    var n := Net(headers, None, []);
    var headed := if code.Some? then Commit(n, code.value) else n;
    if body != [] then Append(headed, body) else headed
  }

  lemma FlushRun(c: Codec, key: string, script: seq<Op>)
    ensures NetRun(UNTOUCHED, Flushed(c, key, script)) ==
      AfterFlush(SignedHeaders(c, key, script), LastCode(script), Written(script))
  {
    BareParts(script);
    var body, code := Written(script), LastCode(script);
    var s0 := Edits(script);
    var s1 := s0 + if body != [] then [SetHeader(HASH_HEADER, c.hmacHex(key, body))] else [];
    var s2 := s1 + if code.Some? then [WriteHeader(code.value)] else [];
    var n1 := Net(SignedHeaders(c, key, script), None, []);
    var n2 := if code.Some? then Commit(n1, code.value) else n1;
    assert NetRun(UNTOUCHED, s1) == n1 by {
      if body != [] { NetSnoc(UNTOUCHED, s0, SetHeader(HASH_HEADER, c.hmacHex(key, body))); } else { assert s1 == s0; }
    }
    assert NetRun(UNTOUCHED, s2) == n2 by {
      if code.Some? { NetSnoc(UNTOUCHED, s1, WriteHeader(code.value)); } else { assert s2 == s1; }
    }
    if body != [] { NetSnoc(UNTOUCHED, s2, Write(body)); } else { assert Flushed(c, key, script) == s2; }
  }

  lemma BareFlushed(c: Codec, key: string, script: seq<Op>)
    ensures var a, code := Bare(Flushed(c, key, script)), LastCode(script);
      && a.status == (if code.Some? then code.value else STATUS_OK)
      && a.headers == SignedHeaders(c, key, script)
      && a.body == Bare(script).body
      && (Responds(Flushed(c, key, script)) <==> code.Some? || Written(script) != [])
  {
    BareParts(script);
    FlushRun(c, key, script);
    RespondsMeans(Flushed(c, key, script));
    assert [] + Written(script) == Written(script);
  }

  /** The script that reaches the gzip layer. */
  function Passed(c: Codec, key: string, script: seq<Op>): seq<Op> {
    if key == "" then script else Flushed(c, key, script)
  }

  lemma ServedIsPassed(c: Codec, key: string, accepts: bool, script: seq<Op>)
    requires Lawful(c)
    ensures var a, bare := Served(c, key, accepts, script), Bare(Passed(c, key, script));
      if accepts && Responds(Passed(c, key, script)) && Compresses(bare.headers) then
        a.status == bare.status && a.headers == Encoded(bare.headers) && c.inflate(a.body) == Some(bare.body)
      else a == bare
  {
    if key != "" { SigningFlushes(c, key, Opened(accepts), script); }
    GzipAnswer(c, accepts, Passed(c, key, script));
  }

  /** The client reads the bytes the handler wrote, whatever the handler does. */
  lemma BodyKept(c: Codec, key: string, accepts: bool, script: seq<Op>)
    requires Lawful(c) && !Sets(script, CONTENT_ENCODING)
    ensures Decoded(c, Served(c, key, accepts, script)) == Some(Bare(script).body)
  {
    ServedIsPassed(c, key, accepts, script);
    Unmentioned(script, CONTENT_ENCODING);
    HeadersDiffer();
    if key != "" { BareFlushed(c, key, script); }
  }

  lemma {:induction false} SentStays(script: seq<Op>, i: nat)
    requires i <= |script| && NetRun(UNTOUCHED, script[..i]).sent.Some?
    ensures NetRun(UNTOUCHED, script).sent == NetRun(UNTOUCHED, script[..i]).sent
    decreases |script|
  {
    if i == |script| {
      assert script[..i] == script;
    } else {
      var before := script[..|script| - 1];
      assert before[..i] == script[..i];
      SentStays(before, i);
    }
  }

  lemma {:induction false} LastCodeMeans(script: seq<Op>) returns (i: nat)
    ensures LastCode(script).Some? ==> IsLastStatus(script, i) && script[i].code == LastCode(script).value
    ensures LastCode(script).None? ==> forall j :: 0 <= j < |script| ==> !script[j].WriteHeader?
  {
    i := 0;
    if |script| > 0 {
      var last := |script| - 1;
      if script[last].WriteHeader? {
        i := last;
      } else {
        i := LastCodeMeans(script[..last]);
        assert forall j :: 0 <= j < last ==> script[..last][j] == script[j];
      }
    }
  }

  lemma {:induction false} NoStatusIsOK(script: seq<Op>)
    requires forall j :: 0 <= j < |script| ==> !script[j].WriteHeader?
    ensures Bare(script).status == STATUS_OK
  {
    if |script| > 0 {
      assert forall j :: 0 <= j < |script| - 1 ==> script[..|script| - 1][j] == script[j];
      NoStatusIsOK(script[..|script| - 1]);
    }
  }

  /** The status reaches the client unchanged without a key; with one, exactly when no late call asks for another. */
  lemma StatusKeptIff(c: Codec, key: string, accepts: bool, script: seq<Op>)
    requires Lawful(c)
    ensures Served(c, key, accepts, script).status == Bare(script).status <==> key == "" || StatusSettled(script)
  {
    ServedIsPassed(c, key, accepts, script);
    if key != "" {
      BareFlushed(c, key, script);
      var i := LastCodeMeans(script);
      if LastCode(script).None? {
        NoStatusIsOK(script);
      } else {
        RespondsMeans(script[..i]);
        if Responds(script[..i]) {
          SentStays(script, i);
        } else {
          assert script[..i + 1][..i] == script[..i];
          SentStays(script, i + 1);
        }
        assert forall j :: 0 <= j < |script| && IsLastStatus(script, j) ==> j == i;
      }
    }
  }

  /**
   The answer is signed exactly when there is a key and a body, and the signature is that of the body the client
   reads.
   */
  lemma SignedIff(c: Codec, key: string, accepts: bool, script: seq<Op>)
    requires Lawful(c) && !Sets(script, HASH_HEADER)
    ensures var a, body := Served(c, key, accepts, script), Bare(script).body;
      && (HASH_HEADER in a.headers <==> key != "" && body != [])
      && (HASH_HEADER in a.headers ==> a.headers[HASH_HEADER] == c.hmacHex(key, body))
  {
    ServedIsPassed(c, key, accepts, script);
    Unmentioned(script, HASH_HEADER);
    HeadersDiffer();
    BareParts(script);
    if key != "" { BareFlushed(c, key, script); }
  }

  lemma {:induction false} SnapshotIsLive(script: seq<Op>)
    requires HeadersFirst(script)
    ensures Bare(script).headers == NetRun(UNTOUCHED, script).live
  {
    if |script| > 0 {
      var last := |script| - 1;
      var before := script[..last];
      assert forall i :: 0 <= i < last ==> before[i] == script[i];
      SnapshotIsLive(before);
      RespondsMeans(before);
      if Responds(before) {
        var i :| 0 <= i < last && Settles(before[i]);
        assert Settles(script[last]);
      }
    }
  }

  /**
   Every other header reaches the client too, without a key always, and with one exactly when the edits that the handler
   makes after its answer has begun leave them as they were.
   */
  lemma HeadersKeptIff(c: Codec, key: string, accepts: bool, script: seq<Op>)
    requires Lawful(c)
    ensures Rest(Served(c, key, accepts, script).headers) == Rest(Bare(script).headers) <==>
      key == "" || Rest(NetRun(UNTOUCHED, script).live) == Rest(Bare(script).headers)
  {
    ServedIsPassed(c, key, accepts, script);
    RestEncoded(Bare(Passed(c, key, script)).headers);
    if key != "" {
      BareFlushed(c, key, script);
      RestSigned(NetRun(UNTOUCHED, script).live, c.hmacHex(key, Written(script)));
    }
  }

  lemma RestEncoded(h: Headers)
    ensures Rest(Encoded(h)) == Rest(h)
  {
  }

  lemma RestSigned(h: Headers, signature: string)
    ensures Rest(h[HASH_HEADER := signature]) == Rest(h)
  {
  }

  /** So it does when the handler sets its headers first. */
  lemma HeadersKept(c: Codec, key: string, accepts: bool, script: seq<Op>)
    requires Lawful(c) && (key == "" || HeadersFirst(script))
    ensures Rest(Served(c, key, accepts, script).headers) == Rest(Bare(script).headers)
  {
    HeadersKeptIff(c, key, accepts, script);
    if key != "" { SnapshotIsLive(script); }
  }

  /**
   The headers that the handler's answer goes out with: those set before it begins, or, when it is held back to be
   signed, all it ever sets.
   */
  function Declared(key: string, script: seq<Op>): Headers {
    if key == "" then Bare(script).headers else NetRun(UNTOUCHED, script).live
  }

  /** gzip is decided on the headers that the answer goes out with. */
  predicate Zips(c: Codec, key: string, accepts: bool, script: seq<Op>) {
    accepts && Responds(Passed(c, key, script)) && Compresses(Declared(key, script))
  }

  /** With its headers first, a handler declares the same with or without a key. */
  lemma DeclaredFirst(key: string, script: seq<Op>)
    requires key == "" || HeadersFirst(script)
    ensures Declared(key, script) == Bare(script).headers
  {
    if key != "" { SnapshotIsLive(script); }
  }

  /** A declared length reaches the client exactly when gzip leaves the answer alone. */
  lemma LengthKeptIff(c: Codec, key: string, accepts: bool, script: seq<Op>)
    requires Lawful(c)
    ensures var a, h := Served(c, key, accepts, script), Declared(key, script);
      && (CONTENT_LENGTH in a.headers <==>
          CONTENT_LENGTH in h && !Zips(c, key, accepts, script))
      && (CONTENT_LENGTH in a.headers ==> a.headers[CONTENT_LENGTH] == h[CONTENT_LENGTH])
  {
    ServedIsPassed(c, key, accepts, script);
    HeadersDiffer();
    if key != "" { BareFlushed(c, key, script); }
  }

  /**
   A handler that has its headers and its one status first cannot tell, and neither can its client, that the layers
   are there.
   */
  lemma LayersTransparent(c: Codec, key: string, accepts: bool, script: seq<Op>)
    requires Lawful(c) && HeadersFirst(script) && StatusFirst(script)
    requires !Sets(script, CONTENT_ENCODING) && !Sets(script, HASH_HEADER)
    ensures var a, bare := Served(c, key, accepts, script), Bare(script);
      && a.status == bare.status
      && Decoded(c, a) == Some(bare.body)
      && Rest(a.headers) == Rest(bare.headers)
      && (HASH_HEADER in a.headers <==> key != "" && bare.body != [])
      && (HASH_HEADER in a.headers ==> a.headers[HASH_HEADER] == c.hmacHex(key, Decoded(c, a).value))
  {
    BodyKept(c, key, accepts, script);
    SignedIff(c, key, accepts, script);
    HeadersKept(c, key, accepts, script);
    assert forall i :: 0 <= i < |script| && IsLastStatus(script, i) ==> !Responds(script[..i]);
    StatusKeptIff(c, key, accepts, script);
  }

  predicate StartsWith(s: string, p: string) {
    |s| >= |p| && s[..|p|] == p
  }

  /**
   An answer of a handler that encodes nothing itself reaches an accepting client compressed exactly when it is JSON or
   HTML, whatever parameters follow the type.
   */
  lemma CompressedIff(c: Codec, key: string, accepts: bool, script: seq<Op>)
    requires Lawful(c) && !Sets(script, CONTENT_ENCODING)
    ensures var contentType := Get(Declared(key, script), "Content-Type");
      SaysGzip(Served(c, key, accepts, script).headers) <==>
        && accepts && Responds(Passed(c, key, script))
        && (StartsWith(contentType, "application/json") || StartsWith(contentType, "text/html"))
  {
    ServedIsPassed(c, key, accepts, script);
    HeadersDiffer();
    Unmentioned(script, CONTENT_ENCODING);
    if key != "" { BareFlushed(c, key, script); }
  }

  predicate SaysGzip(h: Headers) {
    Get(h, CONTENT_ENCODING) == "gzip"
  }

  /**
   A handler may encode its own body. Whatever it does, the client then decodes the same bytes as without the layers
   exactly when it decompresses the handler's own bytes in both cases or in neither, or decompressing does not change
   them.
   */
  lemma EncodedBodyKeptIff(c: Codec, key: string, accepts: bool, script: seq<Op>)
    requires Lawful(c)
    ensures var bare := Bare(script);
      Decoded(c, Served(c, key, accepts, script)) == Decoded(c, bare) <==>
        || (SaysGzip(bare.headers) <==> SaysGzip(Declared(key, script)) && !Zips(c, key, accepts, script))
        || c.inflate(bare.body) == Some(bare.body)
  {
    ServedIsPassed(c, key, accepts, script);
    HeadersDiffer();
    if key != "" { BareFlushed(c, key, script); }
  }

  /** With the headers first: exactly when gzip leaves the answer alone, or decompressing once more changes nothing. */
  lemma EncodedFirstKeptIff(c: Codec, key: string, accepts: bool, script: seq<Op>)
    requires Lawful(c) && (key == "" || HeadersFirst(script))
    ensures var bare := Bare(script);
      Decoded(c, Served(c, key, accepts, script)) == Decoded(c, bare) <==>
        || !(accepts && Responds(Passed(c, key, script)) && Compresses(bare.headers))
        || !SaysGzip(bare.headers)
        || c.inflate(bare.body) == Some(bare.body)
  {
    EncodedBodyKeptIff(c, key, accepts, script);
    DeclaredFirst(key, script);
  }
}
