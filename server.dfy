/** The HTTP handlers of `main.go`: `/get` and `/set` as functions from a
    request, and the store's answer to it, to the response; and `getEnv`. */
module Server {
  import opened Wrappers
  import opened Decimal
  import opened FileNames
  import opened Store

  /** The bytes Go's `[]byte(s)` gives for an ASCII string: one byte per
      character (UTF-8 encodes code points below 128 as themselves). */
  function Ascii(s: string): (b: seq<byte>)
    requires forall i :: 0 <= i < |s| ==> s[i] as int < 128
    ensures |b| == |s| && forall i :: 0 <= i < |s| ==> b[i] == s[i] as int
  {
    seq(|s|, i requires 0 <= i < |s| => s[i] as int)
  }

  const MissingKey: seq<byte> := Ascii("missing ?key")
  const ExpireMustBeInteger: seq<byte> := Ascii("?expire must be an integer")

  /** The status line and body a handler leaves on its `ResponseWriter`. */
  datatype Response = Response(status: int, body: seq<byte>)

  /** What `StreamGet` did for the `/get` handler: it finished, reporting
      whether the key was live and streaming its value when it was, or it
      failed after writing `written` (empty when it failed before copying,
      on open or seek; the bytes `CopyN` managed when the copy broke off). */
  datatype Lookup = Streamed(found: bool, value: seq<byte>) | LookupFailed(written: seq<byte>)

  /** The `/get` handler. The store is consulted only for a non-empty key;
      `lookup` is what it answered then. Once any byte of the value has been
      written, net/http has sent status 200 and a later `WriteHeader(500)`
      changes nothing, so a copy that breaks off midway is a truncated 200. */
  function Get(key: seq<byte>, lookup: Lookup): (r: Response)
    ensures r.status == 400 <==> key == []
    ensures r.status == 400 ==> r.body == MissingKey
    ensures r.status == 404 <==> key != [] && lookup.Streamed? && !lookup.found
    ensures r.status == 500 <==> key != [] && lookup == LookupFailed([])
    ensures r.status == 200 <==> key != [] && (lookup.Streamed? ==> lookup.found) && (lookup.LookupFailed? ==> lookup.written != [])
    ensures r.status == 200 ==> r.body == if lookup.Streamed? then lookup.value else lookup.written
    ensures r.status in {200, 400, 404, 500}
    ensures r.status in {404, 500} ==> r.body == []
  {
    if key == [] then Response(400, MissingKey)
    else match lookup
      case LookupFailed(written) =>
        if written == [] then Response(500, []) else Response(200, written)
      case Streamed(found, value) =>
        if !found then Response(404, []) else Response(200, value)
  }

  /** What the `/set` handler decides before it touches the store: answer
      at once, or store `value` under `key` with expiry `expire`. */
  datatype SetPlan = Reply(response: Response) | Put(key: seq<byte>, expire: int64, value: seq<byte>)

  /** The expiry of a `/set` without `?expire`: never, in Unix milliseconds. */
  function ExpireOf(param: seq<byte>): (r: Option<int64>)
    ensures param == [] ==> r == Some(MaxInt64)
    ensures param != [] ==> r == Atoi(param, 0, |param|)
  {
    if param == [] then Some(MaxInt64) else Atoi(param, 0, |param|)
  }

  /** The `/set` handler up to its call of `Set`: the key must be present,
      `?expire` absent or an integer, and the body readable (`body` is None
      when `io.ReadAll` fails). */
  function PlanSet(key: seq<byte>, expireParam: seq<byte>, body: Option<seq<byte>>): (r: SetPlan)
    ensures r.Put? <==> key != [] && ExpireOf(expireParam).Some? && body.Some?
    ensures r.Put? ==> r == Put(key, ExpireOf(expireParam).value, body.value)
    ensures r == Reply(Response(400, MissingKey)) <==> key == []
    ensures r == Reply(Response(400, ExpireMustBeInteger)) <==> key != [] && ExpireOf(expireParam).None?
    ensures r == Reply(Response(500, [])) <==> key != [] && ExpireOf(expireParam).Some? && body.None?
  {
    if key == [] then Reply(Response(400, MissingKey))
    else match ExpireOf(expireParam)
      case None => Reply(Response(400, ExpireMustBeInteger))
      case Some(expire) =>
        match body
        case None => Reply(Response(500, []))
        case Some(value) => Put(key, expire, value)
  }

  /** The `/set` handler after `Set`: 500 when it failed, else an empty 200. */
  function SetResponse(setSucceeded: bool): (r: Response)
    ensures r.body == []
    ensures r.status == 200 <==> setSucceeded
    ensures r.status == 500 <==> !setSucceeded
  {
    if setSucceeded then Response(200, []) else Response(500, [])
  }

  /** Every non-empty `?expire` that is a 64-bit integer written in decimal
      reaches the store as that integer. */
  lemma ExpireParamRoundTrip(key: seq<byte>, expire: int64, value: seq<byte>)
    requires key != []
    ensures PlanSet(key, FormatInt(expire), Some(value)) == Put(key, expire, value)
  {
    AtoiFormatInt(expire);
  }

  /** A `/set` without `?expire`, then a `/get` of the same key: the get
      answers 200 with exactly the body that was set, at every instant a
      64-bit clock can report except the very last. */
  method SetThenGet(store: LogStore, key: seq<byte>, body: seq<byte>, now: int64, freshName: FileName)
    returns (setReply: Response, getReply: Response)
    requires store.Valid() && freshName !in store.dir
    requires key != [] && now < MaxInt64
    modifies store, store.keys, store.keys.shards
    ensures setReply == Response(200, []) && getReply == Response(200, body)
  {
    var plan := PlanSet(key, [], Some(body));
    store.Set(plan.key, plan.expire, plan.value, now, freshName);
    setReply := SetResponse(true);
    var found, value := store.StreamGet(key, now);
    getReply := Get(key, Streamed(found, value));
  }

  /** The way to delete through the handlers: a `/set` whose `?expire` has
      passed removes the key, and a `/get` of it then answers 404. */
  method ExpiredSetThenGet(store: LogStore, key: seq<byte>, expire: int64, body: seq<byte>, now: int64, freshName: FileName)
    returns (setReply: Response, getReply: Response)
    requires store.Valid() && freshName !in store.dir
    requires key != [] && expire <= now
    modifies store, store.keys, store.keys.shards
    ensures setReply == Response(200, []) && getReply == Response(404, [])
  {
    ExpireParamRoundTrip(key, expire, body);
    var plan := PlanSet(key, FormatInt(expire), Some(body));
    store.Set(plan.key, plan.expire, plan.value, now, freshName);
    setReply := SetResponse(true);
    var found, value := store.StreamGet(key, now);
    getReply := Get(key, Streamed(found, value));
  }

  /** `getEnv`: the variable's value when it is set, even to the empty
      string; the fallback only when it is unset. */
  function GetEnv(env: map<string, string>, key: string, fallback: string): (r: string)
    ensures key in env ==> r == env[key]
    ensures key !in env ==> r == fallback
  {
    if key in env then env[key] else fallback
  }
}
