/**
 * The HTTP service in alpaca_api.py: the bearer-token store with its
 * request counters, the start-up and shutdown hooks, and the routes that
 * forward a request to the engine through `Client.Alpaca`.
 */
module Api {
  import opened Wrappers
  import opened Client

  /** The store: each token with its `num_of_requests`. */
  type Store = map<string, nat>

  // ---------------------------------------------------------------------
  // update_stats
  // ---------------------------------------------------------------------

  /** The counters after one request with `token`, or `None` when the token is unknown (HTTP 403). */
  function Bump(keys: Store, token: string): (r: Option<Store>)
    ensures r.None? <==> token !in keys
    ensures r.Some? ==> r.value.Keys == keys.Keys
  {
    if token in keys then Some(keys[token := keys[token] + 1]) else None
  }

  /** A known token's counter goes up by exactly one and no other counter moves. */
  lemma BumpCounts(keys: Store, token: string)
    requires token in keys
    ensures var r := Bump(keys, token).value;
      && r[token] == keys[token] + 1
      && forall k :: k in keys && k != token ==> r[k] == keys[k]
  {
  }

  /** The number of requests counted in a store, summed over its tokens. */
  ghost function Total(keys: Store): nat
    decreases |keys|
  {
    if |keys| == 0 then 0
    else
      var k := PickKey(keys);
      keys[k] + Total(keys - {k})
  }

  /** Some key of a non-empty store. */
  ghost function PickKey(keys: Store): (k: string)
    requires |keys| > 0
    ensures k in keys
  {
    assert |keys.Keys| > 0;
    var k :| k in keys.Keys; k
  }

  /** The total is the counter of any one token plus the total of the others. */
  lemma {:induction false} TotalSplit(keys: Store, t: string)
    requires t in keys
    ensures Total(keys) == keys[t] + Total(keys - {t})
    decreases |keys|
  {
    var k := PickKey(keys);
    if k != t {
      var rest := keys - {k};
      TotalSplit(rest, t);
      TotalSplit(keys - {t}, k);
      assert rest - {t} == keys - {t} - {k};
    }
  }

  /** A store that agrees with another outside `t` has the same total outside `t`. */
  lemma TotalWithout(a: Store, b: Store, t: string)
    requires a.Keys == b.Keys
    requires forall k :: k in a && k != t ==> a[k] == b[k]
    ensures Total(a - {t}) == Total(b - {t})
  {
    assert a - {t} == b - {t};
  }

  /** Every accepted request adds exactly one to the number of requests counted. */
  lemma BumpTotal(keys: Store, token: string)
    requires token in keys
    ensures Total(Bump(keys, token).value) == Total(keys) + 1
  {
    var r := Bump(keys, token).value;
    TotalSplit(keys, token);
    TotalSplit(r, token);
    TotalWithout(keys, r, token);
  }

  // ---------------------------------------------------------------------
  // startup_event: the keys file
  // ---------------------------------------------------------------------

  /** How many of the `readline()` results come before the first "" (end of file). */
  function LineCount(got: seq<string>): (n: nat)
    ensures n <= |got|
    ensures forall i :: 0 <= i < n ==> got[i] != ""
    ensures n < |got| ==> got[n] == ""
  {
    if |got| == 0 || got[0] == "" then 0 else 1 + LineCount(got[1..])
  }

  /** `while line := file.readline(): keys[line.rstrip()] = UserStats()`, from the store `acc`. */
  function AddKeys(acc: Store, got: seq<string>): Store
    decreases |got|
  {
    if |got| == 0 || got[0] == "" then acc
    else AddKeys(acc[TrimEnd(got[0]) := 0], got[1..])
  }

  /**
   * After the loop a token is a key exactly when it is a key already or a
   * line before the end of file, right-stripped; a token read from the
   * file has count 0, and the others keep theirs.
   */
  lemma {:induction false} AddKeysContents(acc: Store, got: seq<string>, k: string)
    ensures var n := LineCount(got); var r := AddKeys(acc, got);
      && (k in r <==> k in acc || exists i :: 0 <= i < n && TrimEnd(got[i]) == k)
      && ((exists i :: 0 <= i < n && TrimEnd(got[i]) == k) ==> r[k] == 0)
      && (k in acc && !(exists i :: 0 <= i < n && TrimEnd(got[i]) == k) ==> r[k] == acc[k])
    decreases |got|
  {
    if |got| > 0 && got[0] != "" {
      var rest := got[1..];
      AddKeysContents(acc[TrimEnd(got[0]) := 0], rest, k);
      var n := LineCount(got);
      assert forall i :: 0 < i < n ==> got[i] == rest[i - 1];
      if exists i :: 0 <= i < n && TrimEnd(got[i]) == k {
        var i :| 0 <= i < n && TrimEnd(got[i]) == k;
        if i > 0 {
          assert TrimEnd(rest[i - 1]) == k;
        }
      }
      if exists i :: 0 <= i < n - 1 && TrimEnd(rest[i]) == k {
        var i :| 0 <= i < n - 1 && TrimEnd(rest[i]) == k;
        assert TrimEnd(got[i + 1]) == k;
      }
    }
  }

  // ---------------------------------------------------------------------
  // The mock route
  // ---------------------------------------------------------------------

  /** ModelResponse: the fields the routes return. */
  datatype ModelResponse = ModelResponse(
    inputTokenLength: int,
    nTokensTruncated: int,
    output: string,
    outputTokenLength: int,
    reachedMaxContentSize: int,
    totalPredictTimeUs: int,
    totalTokenLength: int)

  const MockOutput: string :=
    "Experience the thrill of watching TV like never before with our 4K OLED TV. Get a crystal clear picture and an incredibly thin design, perfect for any home decor!"

  /** /advertisement-mock: the same answer whatever the request, and a consistent one. */
  function Mock(req: InferenceRequest): (r: ModelResponse)
    ensures r.output == MockOutput
    ensures r.totalTokenLength == r.inputTokenLength + r.outputTokenLength
    ensures r.nTokensTruncated == 0 && r.reachedMaxContentSize == 0
  {
    ModelResponse(55, 0, MockOutput, 41, 0, 24023165, 96)
  }

  /** The mock ignores its request. */
  lemma MockIgnoresRequest(a: InferenceRequest, b: InferenceRequest)
    ensures Mock(a) == Mock(b)
  {
  }

  // ---------------------------------------------------------------------
  // The service state
  // ---------------------------------------------------------------------

  /** How a counted route ends. */
  datatype Reply = Forbidden(status: int, detail: string) | Ran(result: RunResult)

  /** The module's globals `global_model` and `keys`. */
  class Service {
    var model: Option<Alpaca>
    var keys: Option<Store>

    constructor ()
      ensures model.None? && keys.None?
    {
      model := None;
      keys := None;
    }

    /** verify_token: the token is a key of the store, exactly when counting a request for it succeeds. */
    predicate VerifyToken(token: string): (b: bool)
      requires keys.Some?
      reads this
      ensures b <==> Bump(keys.value, token).Some?
    {
      token in keys.value
    }

    /** update_stats: count a request for a known token, or answer 403 "Invalid token". */
    method UpdateStats(token: string) returns (forbidden: Option<Reply>)
      requires keys.Some?
      modifies this
      ensures forbidden.None? <==> old(VerifyToken(token))
      ensures forbidden.Some? ==> forbidden.value == Forbidden(403, "Invalid token") && keys == old(keys)
      ensures forbidden.None? ==> keys == Bump(old(keys.value), token)
      ensures model == old(model)
    {
      var store := keys.value;
      if token in store {
        keys := Some(store[token := store[token] + 1]);
        return None;
      }
      return Some(Forbidden(403, "Invalid token"));
    }

    /**
     * startup_event: launch the engine, then read the keys file line by
     * line; every line, right-stripped, becomes a token with count 0.
     * `raised` when the engine's first line does not convert: `Alpaca(...)`
     * raises out of its constructor, so neither the model nor the store
     * is assigned.
     */
    method Startup(spawned: Pipe, loads: Loads, got: seq<string>) returns (raised: bool)
      modifies this
      ensures raised <==> SystemInfo(NextLine(spawned), loads).None?
      ensures raised ==> model == old(model) && keys == old(keys)
      ensures !raised ==>
        && model.Some? && fresh(model.value)
        && model.value.process == Some(AfterRead(spawned))
        && model.value.systemInfo == SystemInfo(NextLine(spawned), loads)
        && keys == Some(AddKeys(map[], got))
    {
      var alpaca := new Alpaca(spawned, loads);
      if alpaca.systemInfo.None? {
        return true;
      }
      raised := false;
      model := Some(alpaca);
      var store: Store := map[];
      var i := 0;
      while i < |got| && got[i] != ""
        invariant i <= |got|
        invariant model == Some(alpaca)
        invariant alpaca.process == Some(AfterRead(spawned))
        invariant alpaca.systemInfo == SystemInfo(NextLine(spawned), loads)
        invariant AddKeys(store, got[i..]) == AddKeys(map[], got)
        decreases |got| - i
      {
        assert got[i..][1..] == got[i + 1..];
        store := store[TrimEnd(got[i]) := 0];
        i := i + 1;
      }
      keys := Some(store);
    }

    /** stats: the store, unchanged. */
    method Stats() returns (s: Store)
      requires keys.Some?
      ensures s == keys.value
    {
      s := keys.value;
    }

    /**
     * shutdown_event: stop the engine if there is one, then forget it.
     * When `stop` raises (the engine does not exit in time), the model is kept.
     */
    method Shutdown(exits: bool) returns (raised: bool)
      requires model.Some? ==> model.value.process.Some?
      modifies this, if model.Some? then {model.value} else {}
      ensures raised <==> old(model).Some? && !exits
      ensures model == (if raised then old(model) else None) && keys == old(keys)
      ensures old(model).Some? && exits ==> old(model).value.process.None?
      ensures raised ==>
        var pipe := old(model.value.process.value);
        && model.value.process == Some(pipe.(sent := pipe.sent + [Framed("quit();")]))
        && model.value.systemInfo == old(model.value.systemInfo)
    {
      raised := false;
      if model.Some? {
        var closed;
        closed, raised := model.value.Stop(exits);
        if raised {
          return;
        }
        model := None;
      }
    }

    /**
     * /advertisement and /custom-prompt: count the request against the
     * token, then run the wrapped request on the engine.
     */
    method Prompt(token: string, req: InferenceRequest, advertisement: bool,
                  floatText: real -> string, dumps: seq<(string, string)> -> string, loads: Loads)
      returns (r: Reply)
      requires keys.Some? && model.Some? && model.value.process.Some?
      modifies this, model.value
      ensures r.Forbidden? <==> old(!VerifyToken(token))
      ensures r.Forbidden? ==> r == Forbidden(403, "Invalid token") && keys == old(keys)
      ensures r.Ran? ==> keys == Bump(old(keys.value), token)
      ensures model == old(model)
      ensures r.Forbidden? ==> model.value.process == old(model.value.process)
      ensures model.value.systemInfo == old(model.value.systemInfo)
      ensures r.Ran? ==>
        var wrapped := if advertisement then WrapAdvertisement(req) else WrapDefault(req);
        var pipe := old(model.value.process.value);
        var written := pipe.(sent := pipe.sent + [Framed(dumps(RequestFields(wrapped, floatText)))]);
        && model.value.process == Some(AfterRead(written))
        && r.result == ConvertResponse(NextLine(written), loads)
    {
      var forbidden := UpdateStats(token);
      if forbidden.Some? {
        return forbidden.value;
      }
      var wrapped := if advertisement then WrapAdvertisement(req) else WrapDefault(req);
      var result := model.value.Run(wrapped, floatText, dumps, loads);
      r := Ran(result);
    }
  }
}
