/**
 * The web middleware: the in-memory sliding-window rate limiter, the client identifier,
 * the exempt paths and the parsing of the `Authorization` header.
 */
module Middleware {
  import opened Wrappers
  import opened Seqs
  import opened Text

  /** The timestamps newer than `cutoff`, in their order. */
  function Recent(ts: seq<real>, cutoff: real): (r: seq<real>)
    ensures forall t :: t in r <==> t in ts && t > cutoff
    ensures |r| <= |ts| && IsSubsequence(r, ts)
  {
    Filter(ts, t => t > cutoff)
  }

  /** Pruning with a later cutoff after an earlier one is pruning with the later one. */
  lemma {:induction false} RecentTwice(ts: seq<real>, c1: real, c2: real)
    requires c1 <= c2
    ensures Recent(Recent(ts, c1), c2) == Recent(ts, c2)
  {
    if ts != [] {
      RecentTwice(ts[1..], c1, c2);
    }
  }

  /** Pruning distributes over appending one timestamp. */
  lemma {:induction false} RecentAppend(ts: seq<real>, t: real, cutoff: real)
    ensures Recent(ts + [t], cutoff) == Recent(ts, cutoff) + (if t > cutoff then [t] else [])
  {
    if ts != [] {
      assert (ts + [t])[1..] == ts[1..] + [t];
      RecentAppend(ts[1..], t, cutoff);
    }
  }

  /** Every client's pruned list, without the clients whose list becomes empty. */
  function Pruned(requests: map<string, seq<real>>, cutoff: real): (r: map<string, seq<real>>)
    ensures forall c :: c in r <==> c in requests && Recent(requests[c], cutoff) != []
    ensures forall c :: c in r ==> r[c] == Recent(requests[c], cutoff)
  {
    map c | c in requests && Recent(requests[c], cutoff) != [] :: Recent(requests[c], cutoff)
  }

  /**
   * The decision for one client with request history `history` at time `now`: the history
   * is pruned to the last minute; the request is admitted exactly when fewer than
   * `limit` remain, and only then is `now` recorded.
   */
  function Decide(history: seq<real>, now: real, limit: int): (r: (bool, seq<real>))
    ensures r.0 <==> |Recent(history, now - 60.0)| < limit
    ensures r.1 == if r.0 then Recent(history, now - 60.0) + [now] else Recent(history, now - 60.0)
    ensures forall t :: t in r.1 ==> t > now - 60.0
    ensures r.0 ==> |r.1| <= limit
  {
    var recent := Recent(history, now - 60.0);
    if |recent| >= limit then (false, recent) else (true, recent + [now])
  }

  /**
   * One request at time `now` against the state (admitted requests, history): the decision
   * on the history, with `now` added to the admitted requests when it is admitted.
   */
  function Admit(state: (seq<real>, seq<real>), now: real, limit: int): (r: (seq<real>, seq<real>))
    ensures r.1 == Decide(state.1, now, limit).1
    ensures r.0 == if Decide(state.1, now, limit).0 then state.0 + [now] else state.0
  {
    var d := Decide(state.1, now, limit);
    (if d.0 then state.0 + [now] else state.0, d.1)
  }

  /**
   * One client's requests at times `times`, handled in turn from an empty history: the
   * requests admitted and the history left.
   */
  function Replay(times: seq<real>, limit: int): (r: (seq<real>, seq<real>))
    decreases |times|
  {
    if times == [] then ([], [])
    else Admit(Replay(times[..|times| - 1], limit), times[|times| - 1], limit)
  }

  ghost predicate Nondecreasing(times: seq<real>)
  {
    forall i, j :: 0 <= i < j < |times| ==> times[i] <= times[j]
  }

  /** The history is the admitted requests of the minute before `last`, at most `limit` of them. */
  ghost predicate WindowHolds(state: (seq<real>, seq<real>), last: real, limit: int)
  {
    state.1 == Recent(state.0, last - 60.0) && |state.1| <= limit
  }

  /**
   * For requests arriving in time order, the history is exactly the admitted requests of
   * the last minute, and there are never more than `limit` of them: the limiter admits at
   * most `requests_per_minute` requests in any 60-second window ending at a request.
   */
  lemma {:induction false} SlidingWindow(times: seq<real>, limit: int)
    requires limit >= 0 && times != [] && Nondecreasing(times)
    ensures Replay(times, limit).1 == Recent(Replay(times, limit).0, times[|times| - 1] - 60.0)
    ensures |Replay(times, limit).1| <= limit
    decreases |times|
  {
    var init, now := times[..|times| - 1], times[|times| - 1];
    if |times| == 1 {
      assert init == [];
      WindowStep(([], []), now, now, limit);
    } else {
      NondecreasingInit(times);
      SlidingWindow(init, limit);
      WindowStep(Replay(init, limit), init[|init| - 1], now, limit);
    }
    assert WindowHolds(Replay(times, limit), now, limit);
  }

  /** Dropping the last time keeps the order, and the new last time is not after the dropped one. */
  lemma NondecreasingInit(times: seq<real>)
    requires |times| >= 2 && Nondecreasing(times)
    ensures var init := times[..|times| - 1];
      Nondecreasing(init) && init[|init| - 1] <= times[|times| - 1]
  {
    assert times[..|times| - 1][|times| - 2] == times[|times| - 2];
  }

  /**
   * If the history is the admitted requests of the minute before an earlier request, then
   * after one more request it is the admitted requests of the minute before this one, and
   * within the limit.
   */
  lemma WindowStep(state: (seq<real>, seq<real>), last: real, now: real, limit: int)
    requires limit >= 0 && last <= now
    requires WindowHolds(state, last, limit)
    ensures WindowHolds(Admit(state, now, limit), now, limit)
  {
    RecentTwice(state.0, last - 60.0, now - 60.0);
    RecentAppend(state.0, now, now - 60.0);
  }

  /** `request.url.path in ["/v1/health", "/health", "/metrics"]`. */
  predicate IsExemptPath(path: string)
  {
    path in ["/v1/health", "/health", "/metrics"]
  }

  /**
   * `_get_client_id`: the first hop of a non-empty `X-Forwarded-For`, stripped; otherwise a
   * non-empty `X-Real-IP`; otherwise the client host; otherwise "unknown".
   */
  function GetClientId(forwardedFor: Option<string>, realIp: Option<string>, clientHost: Option<string>)
    : (r: string)
    ensures forwardedFor.Some? && forwardedFor.value != "" ==>
      r == Strip(forwardedFor.value[..FirstIndex(forwardedFor.value, ',')]) && ',' !in r
    ensures (forwardedFor.None? || forwardedFor.value == "") && realIp.Some? && realIp.value != "" ==> r == realIp.value
    ensures (forwardedFor.None? || forwardedFor.value == "") && (realIp.None? || realIp.value == "") ==>
      r == if clientHost.Some? then clientHost.value else "unknown"
  {
    if forwardedFor.Some? && forwardedFor.value != "" then
      var first := Split(forwardedFor.value, ',')[0];
      SplitFirst(forwardedFor.value, ',');
      assert ',' !in Strip(first) by {
        assert forall i :: 0 <= i < |Strip(first)| ==> Strip(first)[i] in first;
      }
      Strip(first)
    else if realIp.Some? && realIp.value != "" then realIp.value
    else if clientHost.Some? then clientHost.value
    else "unknown"
  }

  /** The client nearest to the proxy chain's origin is the one identified. */
  lemma ForwardedFirstHop(hop: string, rest: string, realIp: Option<string>, clientHost: Option<string>)
    requires hop != [] && ',' !in hop && !IsSpace(hop[0]) && !IsSpace(hop[|hop| - 1])
    ensures GetClientId(Some(hop + [','] + rest), realIp, clientHost) == hop
  {
    SplitCons(hop, ',', rest);
    StripOfStripped(hop);
  }

  datatype Decision = Forward | Deny(status: nat, reason: DenyReason)

  datatype DenyReason = RateLimitExceeded | MissingAuthorization | MalformedAuthorization

  /** What the JWT middleware does before signature verification. */
  datatype JwtDecision = SkipAuth | RejectAuth(reason: DenyReason) | VerifyToken(token: string)

  /**
   * `jwt_auth_middleware` up to the call into PyJWT: no secret or an exempt path skips the
   * check; a missing or empty header, or one not starting with "Bearer ", is a 401; otherwise
   * the token is the header after its first 7 characters.
   */
  function JwtCheck(secret: Option<string>, path: string, authorization: Option<string>): (r: JwtDecision)
    ensures secret.None? || IsExemptPath(path) ==> r == SkipAuth
    ensures r.VerifyToken? ==> authorization.Some? && authorization.value == "Bearer " + r.token
    ensures r.RejectAuth? <==>
      secret.Some? && !IsExemptPath(path) && (authorization.None? || !StartsWith(authorization.value, "Bearer "))
  {
    if secret.None? then SkipAuth
    else if IsExemptPath(path) then SkipAuth
    else if authorization.None? || authorization.value == "" then RejectAuth(MissingAuthorization)
    else if !StartsWith(authorization.value, "Bearer ") then RejectAuth(MalformedAuthorization)
    else VerifyToken(authorization.value[7..])
  }

  /** A well-formed header yields back exactly the token it carries. */
  lemma BearerRoundTrip(secret: string, path: string, token: string)
    requires !IsExemptPath(path)
    ensures JwtCheck(Some(secret), path, Some("Bearer " + token)) == VerifyToken(token)
  {
    assert ("Bearer " + token)[..7] == "Bearer ";
    assert ("Bearer " + token)[7..] == token;
  }

  /** The state of a cleanup that has yet to visit the clients in `pending`. */
  function PartlyPruned(requests: map<string, seq<real>>, pending: set<string>, cutoff: real)
    : map<string, seq<real>>
  {
    map c | c in requests && (c in pending || Recent(requests[c], cutoff) != []) ::
      if c in pending then requests[c] else Recent(requests[c], cutoff)
  }

  lemma PartlyPrunedStep(requests: map<string, seq<real>>, pending: set<string>, key: string, cutoff: real)
    requires key in pending && key in requests
    ensures var kept := Recent(requests[key], cutoff);
      var current := PartlyPruned(requests, pending, cutoff);
      PartlyPruned(requests, pending - {key}, cutoff)
        == if kept == [] then current[key := kept] - {key} else current[key := kept]
  {
    var kept := Recent(requests[key], cutoff);
    var current := PartlyPruned(requests, pending, cutoff);
    var next := PartlyPruned(requests, pending - {key}, cutoff);
    var expected := if kept == [] then current[key := kept] - {key} else current[key := kept];
    forall c ensures c in next <==> c in expected {
      if c == key {
        assert c in next <==> kept != [];
      } else {
        assert c in next <==> c in current;
      }
    }
    forall c | c in next ensures next[c] == expected[c] {
      if c != key {
        assert next[c] == current[c];
      }
    }
  }

  lemma PartlyPrunedDone(requests: map<string, seq<real>>, cutoff: real)
    ensures PartlyPruned(requests, {}, cutoff) == Pruned(requests, cutoff)
  {
  }

  /** The timestamps of the last minute, as kept by `_cleanup_old_entries`. */
  function AfterCleanup(requests: map<string, seq<real>>, lastCleanup: real, now: real): map<string, seq<real>>
  {
    if now - lastCleanup < 60.0 then requests else Pruned(requests, now - 60.0)
  }

  /**
   * `RateLimiter`: per client, the times of its admitted requests. Time is passed in. A
   * history never holds more than `requestsPerMinute` entries unless it is empty.
   */
  class RateLimiter {
    const requestsPerMinute: int
    var requests: map<string, seq<real>>
    var lastCleanup: real

    ghost predicate Valid()
      reads this
    {
      forall c :: c in requests ==> requests[c] == [] || |requests[c]| <= requestsPerMinute
    }

    constructor(requestsPerMinute: int, now: real)
      ensures Valid()
      ensures this.requestsPerMinute == requestsPerMinute && requests == map[] && lastCleanup == now
    {
      this.requestsPerMinute := requestsPerMinute;
      requests := map[];
      lastCleanup := now;
    }

    /**
     * `_cleanup_old_entries`: nothing happens within 60 seconds of the last cleanup;
     * otherwise every history is pruned, emptied clients are deleted and the time recorded.
     */
    method CleanupOldEntries(now: real)
      modifies this
      requires Valid()
      ensures Valid()
      ensures requests == AfterCleanup(old(requests), old(lastCleanup), now)
      ensures lastCleanup == if now - old(lastCleanup) < 60.0 then old(lastCleanup) else now
    {
      if now - lastCleanup < 60.0 {
        return;
      }
      var cutoff := now - 60.0;
      ghost var before := requests;
      var keys := requests.Keys;
      while keys != {}
        invariant keys <= before.Keys
        invariant requests == PartlyPruned(before, keys, cutoff)
        decreases |keys|
      {
        var key :| key in keys;
        var kept := Recent(requests[key], cutoff);
        requests := requests[key := kept];
        if kept == [] {
          requests := requests - {key};
        }
        PartlyPrunedStep(before, keys, key, cutoff);
        keys := keys - {key};
      }
      PartlyPrunedDone(before, cutoff);
      lastCleanup := now;
    }

    /**
     * `is_allowed` for a client already identified: clean up, prune the client's history to
     * the last minute and admit when fewer than `requestsPerMinute` remain, recording `now`.
     * The client's entry exists afterwards even when empty, as with a `defaultdict`.
     */
    method IsAllowed(client: string, now: real) returns (allowed: bool)
      modifies this
      requires Valid()
      ensures Valid()
      ensures var cleaned := AfterCleanup(old(requests), old(lastCleanup), now);
        var history := if client in cleaned then cleaned[client] else [];
        && client in requests
        && (allowed, requests[client]) == Decide(history, now, requestsPerMinute)
        && requests == cleaned[client := requests[client]]
      ensures lastCleanup == if now - old(lastCleanup) < 60.0 then old(lastCleanup) else now
      ensures client in requests
      ensures forall t :: t in requests[client] ==> t > now - 60.0
      ensures requests[client] == [] || |requests[client]| <= requestsPerMinute
    {
      CleanupOldEntries(now);
      var history := if client in requests then requests[client] else [];
      var recent := Recent(history, now - 60.0);
      requests := requests[client := recent];
      if |recent| >= requestsPerMinute {
        return false;
      }
      requests := requests[client := recent + [now]];
      allowed := true;
    }

    /**
     * `rate_limit_middleware`: exempt paths pass without touching the limiter; other
     * requests pass when admitted and get 429 otherwise.
     */
    method Admit(path: string, client: string, now: real) returns (d: Decision)
      modifies this
      requires Valid()
      ensures Valid()
      ensures IsExemptPath(path) ==> d == Forward && requests == old(requests) && lastCleanup == old(lastCleanup)
      ensures !IsExemptPath(path) ==>
        var cleaned := AfterCleanup(old(requests), old(lastCleanup), now);
        var history := if client in cleaned then cleaned[client] else [];
        && d == (if Decide(history, now, requestsPerMinute).0 then Forward else Deny(429, RateLimitExceeded))
        && requests == cleaned[client := Decide(history, now, requestsPerMinute).1]
        && lastCleanup == if now - old(lastCleanup) < 60.0 then old(lastCleanup) else now
    {
      if IsExemptPath(path) {
        return Forward;
      }
      var allowed := IsAllowed(client, now);
      d := if allowed then Forward else Deny(429, RateLimitExceeded);
    }
  }
}
