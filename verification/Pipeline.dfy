/**
 The wire pipeline of a batch: the agent encodes, signs, compresses and encrypts; the server decrypts, decompresses and
 verifies in three middlewares before the handler decodes. JSON, gzip and HMAC are functions; order, headers and framing
 are as in the code.
 */
module Pipeline {
  import opened Wrappers
  import opened Bytes
  import opened Metrics
  import opened Crypto
  import Mem = MemStorage
  import opened FileStorage

  /**
   `gunzip` is `None` when the stream breaks after a good header, and `gunzipPrefix` what it has given by then;
   `gzipHeaderOk` is whether the bytes begin with a whole gzip header.
   */
  datatype Codecs = Codecs(
    json: Json,
    gzip: Bytes -> Bytes,
    gzipHeaderOk: Bytes -> bool,
    gunzip: Bytes -> Option<Bytes>,
    gunzipPrefix: Bytes -> Bytes,
    hmacHex: (string, Bytes) -> string,
    ciphers: Ciphers)

  ghost predicate LawfulCodecs(c: Codecs) {
    && FileStorage.Lawful(c.json)
    && (forall x :: c.gzipHeaderOk(c.gzip(x)) && c.gunzip(c.gzip(x)) == Some(x))
    && (forall k, x :: c.hmacHex(k, x) != "")
    && Crypto.Lawful(c.ciphers)
  }

  /** What reading a body gives: its bytes, or some bytes and an error. */
  datatype Body = Whole(data: Bytes) | Broken(data: Bytes)

  /** An empty header is an absent one. */
  datatype Request = Request(encrypted: string, contentEncoding: string, hash: string, contentLength: int, body: Body)

  // The agent.

  /** A public key with the random values one `Encrypt` call draws. */
  datatype Sealing = Sealing(pub: PublicKey, aesKey: Bytes, nonce: Bytes, padding: int)

  /** `Sender.Send` up to the first attempt; `None` when it logs an error or has nothing to send. */
  function Send(c: Codecs, metrics: seq<Metric>, key: string, enc: Option<Sealing>): Option<Request> {
    if metrics == [] then None
    else
      var data := c.json.marshal(metrics);
      if data.None? then None
      else
        var zipped := c.gzip(data.value);
        var body := if enc.None? then Some(zipped)
          else Encrypt(c.ciphers, enc.value.pub, zipped, enc.value.aesKey, enc.value.nonce, enc.value.padding);
        if body.None? then None
        else Some(Request(
          if enc.Some? then "1" else "",
          "gzip",
          if key != "" then c.hmacHex(key, data.value) else "",
          |body.value|,
          Whole(body.value)))
  }

  /** `Sender.Send`, its variables assigned as in the code, up to the first attempt. */
  method BuildRequest(c: Codecs, metrics: seq<Metric>, key: string, enc: Option<Sealing>) returns (req: Option<Request>)
    ensures req == Send(c, metrics, key, enc)
  {
    if |metrics| == 0 { return None; }
    var data := c.json.marshal(metrics);
    if data.None? { return None; }
    var body := c.gzip(data.value);
    var encrypted := false;
    if enc.Some? {
      var sealed := Encrypt(c.ciphers, enc.value.pub, body, enc.value.aesKey, enc.value.nonce, enc.value.padding);
      if sealed.None? { return None; }
      body := sealed.value;
      encrypted := true;
    }
    var r := Request("", "gzip", "", |body|, Whole(body));
    if encrypted { r := r.(encrypted := "1"); }
    if key != "" { r := r.(hash := c.hmacHex(key, data.value)); }
    return Some(r);
  }

  // The server.

  /** A middleware answers the request itself, or passes it on. */
  datatype Outcome = Reply(status: nat) | Pass(req: Request)

  const BAD_REQUEST := 400
  const INTERNAL_SERVER_ERROR := 500

  function DecryptStage(c: Codecs, priv: Option<PrivateKey>, r: Request): Outcome {
    if priv.None? || r.encrypted == "" then Pass(r)
    else if r.body.Broken? then Reply(INTERNAL_SERVER_ERROR)
    else
      var plaintext := Decrypt(c.ciphers, priv.value, r.body.data);
      if plaintext.None? then Reply(BAD_REQUEST)
      else Pass(r.(body := Whole(plaintext.value), contentLength := |plaintext.value|))
  }

  /** What reading through the decompressor gives; an error below it comes through, whatever was decoded before. */
  function Gunzipped(c: Codecs, body: Body): Body {
    if body.Whole? && c.gunzip(body.data).Some? then Whole(c.gunzip(body.data).value)
    else Broken(c.gunzipPrefix(body.data))
  }

  function GunzipStage(c: Codecs, r: Request): Outcome {
    if r.contentEncoding != "gzip" then Pass(r)
    else if !c.gzipHeaderOk(r.body.data) then Reply(BAD_REQUEST)
    else Pass(r.(body := Gunzipped(c, r.body)))
  }

  function VerifyStage(c: Codecs, key: string, r: Request): Outcome {
    if key == "" || r.hash == "" then Pass(r)
    else if r.body.Broken? then Reply(INTERNAL_SERVER_ERROR)
    else if c.hmacHex(key, r.body.data) != r.hash then Reply(BAD_REQUEST)
    else Pass(r)
  }

  /** The order of `cmd/server`: decrypt, gunzip, verify. */
  function Chain(c: Codecs, priv: Option<PrivateKey>, key: string, r: Request): Outcome {
    var first := DecryptStage(c, priv, r);
    if first.Reply? then first
    else
      var second := GunzipStage(c, first.req);
      if second.Reply? then second else VerifyStage(c, key, second.req)
  }

  /** The request object the middlewares change in place. */
  class HttpRequest {
    const encrypted: string
    const contentEncoding: string
    const hash: string
    var contentLength: int
    var body: Body

    function View(): Request
      reads this
    {
      Request(encrypted, contentEncoding, hash, contentLength, body)
    }

    constructor (r: Request)
      ensures View() == r
    {
      encrypted, contentEncoding, hash := r.encrypted, r.contentEncoding, r.hash;
      contentLength, body := r.contentLength, r.body;
    }

    /** `crypto.Middleware`; a status is the answer given instead of calling the next handler. */
    method DecryptMiddleware(c: Codecs, priv: Option<PrivateKey>) returns (status: Option<nat>)
      modifies this
      ensures DecryptStage(c, priv, old(View())) == if status.Some? then Reply(status.value) else Pass(View())
    {
      if priv.None? || encrypted == "" { return None; }
      if body.Broken? { return Some(INTERNAL_SERVER_ERROR); }
      var plaintext := Decrypt(c.ciphers, priv.value, body.data);
      if plaintext.None? { return Some(BAD_REQUEST); }
      body := Whole(plaintext.value);
      contentLength := |plaintext.value|;
      return None;
    }

    /** The request half of `gzip.Middleware`. */
    method GunzipMiddleware(c: Codecs) returns (status: Option<nat>)
      modifies this
      ensures GunzipStage(c, old(View())) == if status.Some? then Reply(status.value) else Pass(View())
    {
      if contentEncoding == "gzip" {
        if !c.gzipHeaderOk(body.data) { return Some(BAD_REQUEST); }
        body := Gunzipped(c, body);
      }
      return None;
    }

    /** The request half of `hash.Middleware`. */
    method VerifyMiddleware(c: Codecs, key: string) returns (status: Option<nat>)
      modifies this
      ensures VerifyStage(c, key, old(View())) == if status.Some? then Reply(status.value) else Pass(View())
    {
      if key == "" { return None; }
      if hash != "" {
        if body.Broken? { return Some(INTERNAL_SERVER_ERROR); }
        var data := body.data;
        if c.hmacHex(key, data) != hash { return Some(BAD_REQUEST); }
        body := Whole(data);
      }
      return None;
    }

    method Serve(c: Codecs, priv: Option<PrivateKey>, key: string) returns (status: Option<nat>)
      modifies this
      ensures Chain(c, priv, key, old(View())) == if status.Some? then Reply(status.value) else Pass(View())
    {
      status := DecryptMiddleware(c, priv);
      if status.Some? { return; }
      status := GunzipMiddleware(c);
      if status.Some? { return; }
      status := VerifyMiddleware(c, key);
    }
  }

  /** The agent's key and the server's belong together, when there are any. */
  ghost predicate KeysMatch(c: Codecs, enc: Option<Sealing>, priv: Option<PrivateKey>) {
    enc.Some? ==>
      && priv.Some? && KeyPair(c.ciphers, enc.value.pub, priv.value)
      && |enc.value.aesKey| == AES_KEY_SIZE && |enc.value.nonce| == c.ciphers.nonceSize
  }

  /**
   Whatever is configured, the handler receives exactly the JSON the agent signed, unless both sides sign with keys
   whose HMACs of it differ, and then the request is refused.
   */
  lemma RequestRoundTrip(c: Codecs, metrics: seq<Metric>, agentKey: string, serverKey: string,
      enc: Option<Sealing>, priv: Option<PrivateKey>)
    requires LawfulCodecs(c) && KeysMatch(c, enc, priv)
    requires Send(c, metrics, agentKey, enc).Some?
    ensures var data := c.json.marshal(metrics).value;
      var served := Chain(c, priv, serverKey, Send(c, metrics, agentKey, enc).value);
      if agentKey == "" || serverKey == "" || c.hmacHex(serverKey, data) == c.hmacHex(agentKey, data)
      then served.Pass? && served.req.body == Whole(data)
      else served == Reply(BAD_REQUEST)
  {
    var data := c.json.marshal(metrics).value;
    if enc.Some? {
      var e := enc.value;
      DecryptEncrypt(c.ciphers, e.pub, priv.value, c.gzip(data), e.aesKey, e.nonce, e.padding);
    }
  }

  /** The body the handler reads carries the signature that came with the request. */
  predicate Verified(c: Codecs, key: string, r: Request) {
    r.body.Whole? && c.hmacHex(key, r.body.data) == r.hash
  }

  /**
   A server with a key hands its handler a body that was not verified exactly when the request comes unsigned and a
   server without a key would hand it over; a signed one is handed over exactly when it then verifies.
   */
  lemma UnverifiedPassesIff(c: Codecs, priv: Option<PrivateKey>, key: string, r: Request)
    requires LawfulCodecs(c) && key != ""
    ensures var served, unkeyed := Chain(c, priv, key, r), Chain(c, priv, "", r);
      && (served.Pass? && !Verified(c, key, served.req) <==> r.hash == "" && unkeyed.Pass?)
      && (served.Pass? && Verified(c, key, served.req) <==>
          (r.hash != "" && unkeyed.Pass? && Verified(c, key, unkeyed.req)))
      && (served.Pass? ==> served == unkeyed)
  {
    ChainKeepsHash(c, priv, r);
  }

  lemma ChainKeepsHash(c: Codecs, priv: Option<PrivateKey>, r: Request)
    ensures var unkeyed := Chain(c, priv, "", r); unkeyed.Pass? ==> unkeyed.req.hash == r.hash
  {
  }

  // What the server refuses.

  /** What the server can read of a body: its decryption, when the request says it is encrypted and there is a key. */
  function Plain(c: Codecs, priv: Option<PrivateKey>, r: Request): Option<Body> {
    if priv.None? || r.encrypted == "" then Some(r.body)
    else if r.body.Broken? || Decrypt(c.ciphers, priv.value, r.body.data).None? then None
    else Some(Whole(Decrypt(c.ciphers, priv.value, r.body.data).value))
  }

  /** A body that says it is compressed begins with a gzip header. */
  predicate GzipOk(c: Codecs, contentEncoding: string, b: Body) {
    contentEncoding == "gzip" ==> c.gzipHeaderOk(b.data)
  }

  /** All that the body says, unless it breaks off or does not decompress to its end. */
  function Content(c: Codecs, contentEncoding: string, b: Body): Option<Bytes> {
    if b.Broken? then None else if contentEncoding == "gzip" then c.gunzip(b.data) else Some(b.data)
  }

  /** What can be read of it: the content, or what comes before the break. */
  function Readable(c: Codecs, contentEncoding: string, b: Body): Bytes {
    var content := Content(c, contentEncoding, b);
    if content.Some? then content.value else if contentEncoding == "gzip" then c.gunzipPrefix(b.data) else b.data
  }

  /**
   A request gets through exactly when its body decrypts, begins as it says and, if both sides sign, has a content that
   matches its signature. The handler reads that content, or a body that breaks off when there is none.
   */
  lemma PassesIff(c: Codecs, priv: Option<PrivateKey>, key: string, r: Request)
    ensures var plain, served := Plain(c, priv, r), Chain(c, priv, key, r);
      && (served.Pass? <==>
            && plain.Some? && GzipOk(c, r.contentEncoding, plain.value)
            && var content := Content(c, r.contentEncoding, plain.value);
              key != "" && r.hash != "" ==> content.Some? && c.hmacHex(key, content.value) == r.hash)
      && (served.Pass? ==>
            var content, body := Content(c, r.contentEncoding, plain.value), served.req.body;
            (body.Broken? <==> content.None?) && body.data == Readable(c, r.contentEncoding, plain.value))
  {
  }

  /** What it answers otherwise: 400 to bad data, 500 when reading the body fails before it is judged. */
  lemma RefusedWith(c: Codecs, priv: Option<PrivateKey>, key: string, r: Request)
    ensures var plain, served := Plain(c, priv, r), Chain(c, priv, key, r);
      && (plain.None? ==> served == Reply(if r.body.Broken? then 500 else 400))
      && (plain.Some? && !GzipOk(c, r.contentEncoding, plain.value) ==> served == Reply(400))
      && (served.Reply? ==> served.status in {400, 500})
  {
  }

  /** The declared length is that of the body in front of decompression, before and after decryption. */
  lemma LengthFollowsBody(c: Codecs, metrics: seq<Metric>, key: string, enc: Option<Sealing>, priv: Option<PrivateKey>)
    requires LawfulCodecs(c) && KeysMatch(c, enc, priv) && Send(c, metrics, key, enc).Some?
    ensures var r := Send(c, metrics, key, enc).value;
      && r.contentLength == |r.body.data|
      && DecryptStage(c, priv, r).Pass?
      && var q := DecryptStage(c, priv, r).req; q.contentLength == |q.body.data|
  {
    if enc.Some? {
      var e := enc.value;
      var data := c.json.marshal(metrics).value;
      DecryptEncrypt(c.ciphers, e.pub, priv.value, c.gzip(data), e.aesKey, e.nonce, e.padding);
    }
  }

  // From agent memory to server memory.

  const STATUS_OK := 200

  /** The batch that the body of a request begins with, if there is one; what follows it is not read. */
  function BatchIn(json: Json, r: Request): Option<seq<Metric>> {
    var metrics := json.decode(r.body.data);
    if metrics.None? || metrics.value == [] then None else metrics
  }

  /** `UpdateBatchHandler` over `MemStorage`: the storage afterwards and the status. */
  function HandleBatch(json: Json, s: Store, r: Request): (Store, nat) {
    var metrics := BatchIn(json, r);
    if metrics.None? then (s, BAD_REQUEST) else (Mem.ApplyBatch(s, metrics.value), STATUS_OK)
  }

  /** The handler answers 400 and stores nothing exactly when what it can read begins with no list or an empty one. */
  lemma HandlerRefusesIff(json: Json, s: Store, r: Request)
    ensures HandleBatch(json, s, r).1 == 400 <==>
      json.decode(r.body.data).None? || json.decode(r.body.data) == Some([])
    ensures HandleBatch(json, s, r).1 == 400 ==> HandleBatch(json, s, r).0 == s
    ensures HandleBatch(json, s, r).1 in {200, 400}
  {
  }

  /**
   The storage takes a batch from a request, whoever sent it, exactly when what can be read of its body decrypts,
   decompresses and begins with that batch, which is not empty, and the whole matches the signature if both sides sign.
   */
  lemma TakesBatchIff(c: Codecs, priv: Option<PrivateKey>, key: string, r: Request, metrics: seq<Metric>)
    ensures var plain, served := Plain(c, priv, r), Chain(c, priv, key, r);
      served.Pass? && BatchIn(c.json, served.req) == Some(metrics) <==>
        && plain.Some? && GzipOk(c, r.contentEncoding, plain.value)
        && metrics != [] && c.json.decode(Readable(c, r.contentEncoding, plain.value)) == Some(metrics)
        && var content := Content(c, r.contentEncoding, plain.value);
          key != "" && r.hash != "" ==> content.Some? && c.hmacHex(key, content.value) == r.hash
  {
    PassesIff(c, priv, key, r);
  }

  /** A batch that is sent with matching keys reaches the handler. */
  lemma SentBatchArrives(c: Codecs, metrics: seq<Metric>, key: string, enc: Option<Sealing>, priv: Option<PrivateKey>)
    requires LawfulCodecs(c) && KeysMatch(c, enc, priv)
    requires Send(c, metrics, key, enc).Some?
    ensures var served := Chain(c, priv, key, Send(c, metrics, key, enc).value);
      served.Pass? && BatchIn(c.json, served.req) == Some(metrics)
  {
    RequestRoundTrip(c, metrics, key, key, enc, priv);
  }

  /** A batch that is sent and served with matching keys updates the server's storage as if applied directly. */
  lemma SentBatchIsApplied(c: Codecs, metrics: seq<Metric>, key: string, enc: Option<Sealing>,
      priv: Option<PrivateKey>, s: Store)
    requires LawfulCodecs(c) && KeysMatch(c, enc, priv)
    requires Send(c, metrics, key, enc).Some?
    ensures var served := Chain(c, priv, key, Send(c, metrics, key, enc).value);
      served.Pass? && HandleBatch(c.json, s, served.req) == (Mem.ApplyBatch(s, metrics), STATUS_OK)
  {
    SentBatchArrives(c, metrics, key, enc, priv);
  }

  /** A batch is not sent exactly when it is empty, holds a NaN or infinite gauge, or cannot be encrypted. */
  lemma SendsIff(c: Codecs, metrics: seq<Metric>, key: string, enc: Option<Sealing>)
    requires LawfulCodecs(c)
    requires enc.Some? ==> |enc.value.aesKey| == AES_KEY_SIZE
    ensures Send(c, metrics, key, enc).Some? <==>
      && metrics != [] && Finite(metrics)
      && (enc.Some? ==> c.ciphers.rsaEncrypt(enc.value.pub, enc.value.aesKey, enc.value.padding).Some?)
  {
  }
}
