/** The per-issuer cache of public keys, and how often it may fetch. */
module Jwks {
  import opened Text

  type Bytes = seq<bv8>

  /** Times and spans are in nanoseconds. */
  const REFRESH_COOLDOWN: nat := 30_000_000_000
  const MAX_JWKS_BYTES: nat := 1024 * 1024

  /** How key sets are read, when a key fits a token header, and how long a key set stays fresh. */
  datatype Issuer<!Key, !Header> = Issuer(parse: Bytes -> Option<seq<Key>>, fits: (Key, Header) -> bool, ttl: nat)

  /** What the transport gives back: a body, an error, or nothing because the caller went away. */
  datatype Reply = Body(raw: Bytes) | Unreachable | Cancelled

  datatype Answer<Key> = Keys(keys: seq<Key>) | Invalid | Dropped

  datatype Memory = Memory(keys: Option<Bytes>, fetchedAt: Option<nat>, attemptedAt: Option<nat>)

  const EMPTY := Memory(None, None, None)

  predicate Within(at: Option<nat>, now: nat, span: nat) {
    at.Some? && now - at.value < span
  }

  predicate Known<Key, Header>(issuer: Issuer<Key, Header>, keys: Option<seq<Key>>, header: Header) {
    keys.Some? && exists i | 0 <= i < |keys.value| :: issuer.fits(keys.value[i], header)
  }

  function Current<Key, Header>(issuer: Issuer<Key, Header>, m: Memory): Option<seq<Key>> {
    if m.keys.Some? then issuer.parse(m.keys.value) else None
  }

  /** Answered from memory, key set fresh and key known. */
  predicate Cached<Key, Header>(issuer: Issuer<Key, Header>, m: Memory, now: nat, header: Header) {
    Within(m.fetchedAt, now, issuer.ttl) && Known(issuer, Current(issuer, m), header)
  }

  /** Refused without a fetch. */
  predicate Throttled<Key, Header>(issuer: Issuer<Key, Header>, m: Memory, now: nat) {
    Within(m.attemptedAt, now, REFRESH_COOLDOWN)
        && (Within(m.fetchedAt, now, issuer.ttl) || m.attemptedAt != m.fetchedAt)
  }

  predicate Fetches<Key, Header>(issuer: Issuer<Key, Header>, m: Memory, now: nat, header: Header) {
    !Cached(issuer, m, now, header) && !Throttled(issuer, m, now)
  }

  /** The body of a reply that is accepted. */
  function Accepted<Key, Header>(issuer: Issuer<Key, Header>, reply: Reply): Option<Bytes> {
    if reply.Body? && |reply.raw| <= MAX_JWKS_BYTES && issuer.parse(reply.raw).Some? then Some(reply.raw) else None
  }

  /** The memory after a consultation. */
  function After<Key, Header>(issuer: Issuer<Key, Header>, m: Memory, now: nat, header: Header, reply: Reply): Memory {
    if !Fetches(issuer, m, now, header) then m
    else if Accepted(issuer, reply).Some? then Memory(Accepted(issuer, reply), Some(now), Some(now))
    else m.(attemptedAt := Some(now))
  }

  function AnswerOf<Key, Header>(
      issuer: Issuer<Key, Header>, m: Memory, now: nat, header: Header, reply: Reply): Answer<Key> {
    if Cached(issuer, m, now, header) then Keys(Current(issuer, m).value)
    else if Throttled(issuer, m, now) then Invalid
    else if Accepted(issuer, reply).Some? then Keys(issuer.parse(reply.raw).value)
    else if reply.Cancelled? then Dropped else Invalid
  }

  class Cache {
    var keys: Option<Bytes>
    var fetchedAt: Option<nat>
    var attemptedAt: Option<nat>

    function Contents(): Memory
      reads this
    {
      Memory(keys, fetchedAt, attemptedAt)
    }

    constructor ()
      ensures Contents() == EMPTY
    {
      keys, fetchedAt, attemptedAt := None, None, None;
    }

    /** One consultation; `reply` is what the transport gives if it is asked. */
    method Consult<Key, Header>(issuer: Issuer<Key, Header>, now: nat, header: Header, reply: Reply)
      returns (answer: Answer<Key>, fetched: bool)
      modifies this
      ensures fetched == Fetches(issuer, old(Contents()), now, header)
      ensures Contents() == After(issuer, old(Contents()), now, header, reply)
      ensures answer == AnswerOf(issuer, old(Contents()), now, header, reply)
    {
      fetched := false;
      var recent := fetchedAt.Some? && now - fetchedAt.value < issuer.ttl;
      var current := if keys.Some? then issuer.parse(keys.value) else None;
      var known := false;
      if current.Some? {
        var i := 0;
        while i < |current.value| && !known
          invariant 0 <= i <= |current.value|
          invariant known <==> exists j | 0 <= j < i :: issuer.fits(current.value[j], header)
        {
          known := issuer.fits(current.value[i], header);
          i := i + 1;
        }
      }
      if recent && known {
        return Keys(current.value), fetched;
      }
      var guarded := attemptedAt.Some? && now - attemptedAt.value < REFRESH_COOLDOWN;
      var failedAttempt := attemptedAt != fetchedAt;
      if guarded && (recent || failedAttempt) {
        return Invalid, fetched;
      }
      attemptedAt := Some(now);
      fetched := true;
      match reply
      case Cancelled => answer := Dropped;
      case Unreachable => answer := Invalid;
      case Body(raw) =>
        if |raw| > MAX_JWKS_BYTES {
          return Invalid, fetched;
        }
        var parsed := issuer.parse(raw);
        if parsed.None? {
          return Invalid, fetched;
        }
        keys := Some(raw);
        fetchedAt := Some(now);
        answer := Keys(parsed.value);
    }
  }

  // ---------------------------------------------------------------- runs

  datatype Visit<Header> = Visit(now: nat, header: Header, reply: Reply)

  /** One fetch, and the body it brought if it was accepted. */
  datatype Fetch = Fetch(time: nat, got: Option<Bytes>)

  predicate Monotone<Header>(visits: seq<Visit<Header>>) {
    forall i, j | 0 <= i < j < |visits| :: visits[i].now <= visits[j].now
  }

  function Run<Key, Header>(issuer: Issuer<Key, Header>, visits: seq<Visit<Header>>): Memory {
    if visits == [] then EMPTY
    else
      var v := visits[|visits| - 1];
      After(issuer, Run(issuer, visits[..|visits| - 1]), v.now, v.header, v.reply)
  }

  function Log<Key, Header>(issuer: Issuer<Key, Header>, visits: seq<Visit<Header>>): seq<Fetch> {
    if visits == [] then []
    else
      var v, before := visits[|visits| - 1], visits[..|visits| - 1];
      Log(issuer, before)
      + if Fetches(issuer, Run(issuer, before), v.now, v.header) then [Fetch(v.now, Accepted(issuer, v.reply))] else []
  }

  function Least(a: nat, b: nat): nat { if a < b then a else b }

  /** Consecutive fetches are apart, and further apart after one that brought nothing. */
  ghost predicate Apart<Key, Header>(issuer: Issuer<Key, Header>, log: seq<Fetch>) {
    forall i | 0 <= i < |log| - 1 ::
      && log[i + 1].time - log[i].time >= Least(issuer.ttl, REFRESH_COOLDOWN)
      && (log[i].got.None? ==> log[i + 1].time - log[i].time >= REFRESH_COOLDOWN)
  }

  /** The last fetch that brought a key set. */
  function LastGot(log: seq<Fetch>): Option<Fetch> {
    if log == [] then None
    else if log[|log| - 1].got.Some? then Some(log[|log| - 1])
    else LastGot(log[..|log| - 1])
  }

  /** What memory says about the fetches so far. */
  ghost predicate Remembers<Key, Header>(issuer: Issuer<Key, Header>, m: Memory, log: seq<Fetch>, now: nat) {
    && m.attemptedAt == (if log == [] then None else Some(log[|log| - 1].time))
    && m.fetchedAt == (if LastGot(log).Some? then Some(LastGot(log).value.time) else None)
    && m.keys == (if LastGot(log).Some? then LastGot(log).value.got else None)
    && (m.keys.Some? ==> |m.keys.value| <= MAX_JWKS_BYTES && issuer.parse(m.keys.value).Some?)
    && (log != [] ==> log[|log| - 1].time <= now)
    && (LastGot(log).Some? ==> LastGot(log).value.time <= log[|log| - 1].time)
    && (issuer.ttl > 0 && log != [] && log[|log| - 1].got.None? ==> m.attemptedAt != m.fetchedAt)
  }

  lemma LastGotAppend(log: seq<Fetch>, f: Fetch)
    ensures LastGot(log + [f]) == if f.got.Some? then Some(f) else LastGot(log)
  {
    assert (log + [f])[..|log|] == log;
  }

  lemma Later<Key, Header>(issuer: Issuer<Key, Header>, m: Memory, log: seq<Fetch>, now: nat, later: nat)
    requires Remembers(issuer, m, log, now) && now <= later
    ensures Remembers(issuer, m, log, later)
  {}

  lemma FetchGap<Key, Header>(issuer: Issuer<Key, Header>, m: Memory, log: seq<Fetch>, now: nat, header: Header)
    requires Remembers(issuer, m, log, now) && Fetches(issuer, m, now, header) && log != []
    ensures var last := log[|log| - 1]; now - last.time >= Least(issuer.ttl, REFRESH_COOLDOWN)
    ensures var last := log[|log| - 1]; issuer.ttl > 0 && last.got.None? ==> now - last.time >= REFRESH_COOLDOWN
  {}

  lemma VisitRemembers<Key, Header>(issuer: Issuer<Key, Header>, m: Memory, log: seq<Fetch>, v: Visit<Header>)
    requires Remembers(issuer, m, log, v.now)
    ensures var more := if Fetches(issuer, m, v.now, v.header) then [Fetch(v.now, Accepted(issuer, v.reply))] else [];
      Remembers(issuer, After(issuer, m, v.now, v.header, v.reply), log + more, v.now)
  {
    hide Cached, Throttled;
    if Fetches(issuer, m, v.now, v.header) {
      var f := Fetch(v.now, Accepted(issuer, v.reply));
      LastGotAppend(log, f);
      if log != [] && issuer.ttl > 0 {
        FetchGap(issuer, m, log, v.now, v.header);
      }
    } else {
      assert log + [] == log;
    }
  }

  lemma {:induction false} RunRemembers<Key, Header>(issuer: Issuer<Key, Header>, visits: seq<Visit<Header>>, now: nat)
    requires Monotone(visits) && (visits != [] ==> visits[|visits| - 1].now <= now)
    ensures Remembers(issuer, Run(issuer, visits), Log(issuer, visits), now)
    decreases |visits|
  {
    if visits == [] {
    } else {
      var v, before := visits[|visits| - 1], visits[..|visits| - 1];
      RunRemembers(issuer, before, v.now);
      VisitRemembers(issuer, Run(issuer, before), Log(issuer, before), v);
      Later(issuer, Run(issuer, visits), Log(issuer, visits), v.now, now);
    }
  }

  /** The stored text always parses and is within the size limit. */
  lemma StoredTextParses<Key, Header>(issuer: Issuer<Key, Header>, visits: seq<Visit<Header>>)
    requires Monotone(visits)
    ensures var m := Run(issuer, visits);
        m.keys.Some? ==> |m.keys.value| <= MAX_JWKS_BYTES && issuer.parse(m.keys.value).Some?
    ensures var m := Run(issuer, visits); m.keys.Some? <==> m.fetchedAt.Some?
  {}

  lemma {:induction false} LastGotIs(log: seq<Fetch>)
    ensures LastGot(log).Some? ==> LastGot(log).value in log && LastGot(log).value.got.Some?
  {
    if log != [] && log[|log| - 1].got.None? {
      LastGotIs(log[..|log| - 1]);
    }
  }

  /**
   * With a positive time to live, no run fetches faster than the smaller of that time and the cooldown, or within the
   * cooldown of a failure.
   */
  lemma {:induction false} FetchesApart<Key, Header>(issuer: Issuer<Key, Header>, visits: seq<Visit<Header>>)
    requires Monotone(visits) && issuer.ttl > 0
    ensures Apart(issuer, Log(issuer, visits))
    decreases |visits|
  {
    if visits == [] {
    } else {
      var v, before := visits[|visits| - 1], visits[..|visits| - 1];
      FetchesApart(issuer, before);
      RunRemembers(issuer, before, v.now);
      if Fetches(issuer, Run(issuer, before), v.now, v.header) && Log(issuer, before) != [] {
        FetchGap(issuer, Run(issuer, before), Log(issuer, before), v.now, v.header);
      }
    }
  }

  lemma {:induction false} ApartSpans<Key, Header>(issuer: Issuer<Key, Header>, log: seq<Fetch>)
    requires Apart(issuer, log) && log != []
    ensures log[|log| - 1].time - log[0].time >= (|log| - 1) * Least(issuer.ttl, REFRESH_COOLDOWN)
  {
    var n := |log| - 1;
    if n == 0 {
    } else {
      ApartSpans(issuer, log[..n]);
      assert log[n - 1 + 1].time - log[n - 1].time >= Least(issuer.ttl, REFRESH_COOLDOWN);
    }
  }

  /** So n fetches take at least n - 1 times that long. */
  lemma FetchRate<Key, Header>(issuer: Issuer<Key, Header>, visits: seq<Visit<Header>>)
    requires Monotone(visits) && issuer.ttl > 0
    ensures var log := Log(issuer, visits);
      log != [] ==> log[|log| - 1].time - log[0].time >= (|log| - 1) * Least(issuer.ttl, REFRESH_COOLDOWN)
  {
    FetchesApart(issuer, visits);
    if Log(issuer, visits) != [] {
      ApartSpans(issuer, Log(issuer, visits));
    }
  }

  /** The keys that the last fetch that brought any has brought. */
  function Latest<Key, Header>(issuer: Issuer<Key, Header>, log: seq<Fetch>): Option<seq<Key>> {
    if LastGot(log).Some? && LastGot(log).value.got.Some? then issuer.parse(LastGot(log).value.got.value) else None
  }

  /** Those keys are less than the time to live old, and one of them fits. */
  ghost predicate Usable<Key, Header>(issuer: Issuer<Key, Header>, log: seq<Fetch>, now: nat, header: Header) {
    && LastGot(log).Some? && now - LastGot(log).value.time < issuer.ttl
    && Latest(issuer, log).Some?
    && var keys := Latest(issuer, log).value; exists i | 0 <= i < |keys| :: issuer.fits(keys[i], header)
  }

  /**
   * A visit without usable keys asks again, unless the last fetch failed within the cooldown, or brought keys within
   * both the cooldown and the time to live. A failure in the instant of the last success does not count as one.
   */
  ghost predicate AsksAgain<Key, Header>(issuer: Issuer<Key, Header>, log: seq<Fetch>, now: nat) {
    || log == []
    || now - log[|log| - 1].time >= 30_000_000_000
    || (LastGot(log).Some? && LastGot(log).value.time == log[|log| - 1].time
        && now - LastGot(log).value.time >= issuer.ttl)
  }

  lemma UsableIsCached<Key, Header>(issuer: Issuer<Key, Header>, m: Memory, log: seq<Fetch>, now: nat, header: Header)
    requires Remembers(issuer, m, log, now)
    ensures Cached(issuer, m, now, header) <==> Usable(issuer, log, now, header)
    ensures Usable(issuer, log, now, header) ==> Current(issuer, m) == Latest(issuer, log)
  {
    LastGotIs(log);
    assert LastGot(log).Some? ==> Current(issuer, m) == Latest(issuer, log);
  }

  /** When a visit fetches, told by the fetches before it. */
  lemma FetchesExactly<Key, Header>(issuer: Issuer<Key, Header>, visits: seq<Visit<Header>>, v: Visit<Header>)
    requires Monotone(visits + [v])
    ensures Fetches(issuer, Run(issuer, visits), v.now, v.header)
       <==> !Usable(issuer, Log(issuer, visits), v.now, v.header) && AsksAgain(issuer, Log(issuer, visits), v.now)
  {
    hide Usable, Cached;
    var all := visits + [v];
    assert forall i | 0 <= i < |visits| :: visits[i] == all[i];
    assert all[|visits|] == v;
    RunRemembers(issuer, visits, v.now);
    UsableIsCached(issuer, Run(issuer, visits), Log(issuer, visits), v.now, v.header);
  }

  /**
   * What a visit is answered, told by the fetches before it and the reply: usable keys are handed out without asking;
   * otherwise, if it asks, the keys of an acceptable body; and in all other cases none.
   */
  lemma AnswersExactly<Key, Header>(issuer: Issuer<Key, Header>, visits: seq<Visit<Header>>, v: Visit<Header>)
    requires Monotone(visits + [v])
    ensures var log, after := Log(issuer, visits), Log(issuer, visits + [v]);
      var answer := AnswerOf(issuer, Run(issuer, visits), v.now, v.header, v.reply);
      if Usable(issuer, log, v.now, v.header) then answer == Keys(Latest(issuer, log).value) && after == log
      else if !AsksAgain(issuer, log, v.now) then answer == Invalid && after == log
      else
        match v.reply
        case Cancelled => answer == Dropped && after == log + [Fetch(v.now, None)]
        case Unreachable => answer == Invalid && after == log + [Fetch(v.now, None)]
        case Body(raw) =>
          if |raw| <= 1024 * 1024 && issuer.parse(raw).Some?
          then answer == Keys(issuer.parse(raw).value) && after == log + [Fetch(v.now, Some(raw))]
          else answer == Invalid && after == log + [Fetch(v.now, None)]
  {
    hide Usable, AsksAgain, Cached, Throttled, Run, Log;
    var all := visits + [v];
    assert forall i | 0 <= i < |visits| :: visits[i] == all[i];
    assert all[|visits|] == v;
    RunRemembers(issuer, visits, v.now);
    UsableIsCached(issuer, Run(issuer, visits), Log(issuer, visits), v.now, v.header);
    FetchesExactly(issuer, visits, v);
    VisitAppend(issuer, visits, v);
    assert Log(issuer, visits) + [] == Log(issuer, visits);
  }

  /** So the first visit after a successful fetch, within the time to live, is answered from it if a key fits. */
  lemma FetchedKeysServe<Key, Header>(
      issuer: Issuer<Key, Header>, visits: seq<Visit<Header>>, v: Visit<Header>, w: Visit<Header>, key: Key)
    requires Monotone(visits + [v] + [w]) && w.now - v.now < issuer.ttl
    requires AsksAgain(issuer, Log(issuer, visits), v.now) && !Usable(issuer, Log(issuer, visits), v.now, v.header)
    requires v.reply.Body? && |v.reply.raw| <= 1024 * 1024 && issuer.parse(v.reply.raw).Some?
    requires key in issuer.parse(v.reply.raw).value && issuer.fits(key, w.header)
    ensures AnswerOf(issuer, Run(issuer, visits + [v]), w.now, w.header, w.reply)
         == Keys(issuer.parse(v.reply.raw).value)
    ensures Log(issuer, visits + [v] + [w]) == Log(issuer, visits + [v])
  {
    hide Run, Log, AsksAgain, AnswerOf;
    var all := visits + [v] + [w];
    assert forall i | 0 <= i < |visits| :: (visits + [v])[i] == all[i];
    assert forall i | 0 <= i <= |visits| :: (visits + [v])[i] == all[i];
    AnswersExactly(issuer, visits, v);
    LastGotAppend(Log(issuer, visits), Fetch(v.now, Some(v.reply.raw)));
    var keys := issuer.parse(v.reply.raw).value;
    var i :| 0 <= i < |keys| && keys[i] == key;
    assert Latest(issuer, Log(issuer, visits + [v])) == Some(keys);
    assert Usable(issuer, Log(issuer, visits + [v]), w.now, w.header);
    AnswersExactly(issuer, visits + [v], w);
  }

  /** Fetch `f` brought the key set that visit `v` was answered with, and is recent enough. */
  ghost predicate Supplies<Key, Header>(
      issuer: Issuer<Key, Header>, visits: seq<Visit<Header>>, v: Visit<Header>, f: Fetch) {
    var m := Run(issuer, visits);
    var answer := AnswerOf(issuer, m, v.now, v.header, v.reply);
    && f.got.Some? && |f.got.value| <= MAX_JWKS_BYTES && answer.Keys? && issuer.parse(f.got.value) == Some(answer.keys)
    && (v.now - f.time < issuer.ttl
        || (Fetches(issuer, m, v.now, v.header) && f.time == v.now && v.reply == Body(f.got.value)))
  }

  /** A key set that is handed out was brought by this very visit, or by a fetch less than the time to live ago. */
  lemma AnswersAreFresh<Key, Header>(issuer: Issuer<Key, Header>, visits: seq<Visit<Header>>, v: Visit<Header>)
    requires Monotone(visits + [v])
    requires AnswerOf(issuer, Run(issuer, visits), v.now, v.header, v.reply).Keys?
    ensures exists f :: f in Log(issuer, visits + [v]) && Supplies(issuer, visits, v, f)
  {
    var all := visits + [v];
    assert forall i | 0 <= i < |visits| :: visits[i] == all[i];
    assert all[|visits|] == v && all[..|visits|] == visits;
    RunRemembers(issuer, visits, v.now);
    LastGotIs(Log(issuer, visits));
    var m := Run(issuer, visits);
    if Cached(issuer, m, v.now, v.header) {
      var f := LastGot(Log(issuer, visits)).value;
      assert f in Log(issuer, all) && Supplies(issuer, visits, v, f);
    } else {
      var f := Fetch(v.now, Accepted(issuer, v.reply));
      assert f in Log(issuer, all) && Supplies(issuer, visits, v, f);
    }
  }

  /** Three visits within one instant or soon after it. */
  function Hasty<Header>(header: Header, body: Bytes): seq<Visit<Header>> {
    [Visit(0, header, Body(body)), Visit(0, header, Unreachable), Visit(1, header, Unreachable)]
  }

  lemma HastyLog<Key, Header>(issuer: Issuer<Key, Header>, header: Header, body: Bytes)
    requires issuer.ttl == 0 && |body| <= MAX_JWKS_BYTES && issuer.parse(body).Some?
    ensures Log(issuer, Hasty(header, body)) == [Fetch(0, Some(body)), Fetch(0, None), Fetch(1, None)]
  {
    hide Run, Log;
    var a, b, c := Visit(0, header, Body(body)), Visit(0, header, Unreachable), Visit(1, header, Unreachable);
    NoVisits(issuer);
    VisitAppend(issuer, [], a);
    VisitAppend(issuer, [a], b);
    VisitAppend(issuer, [a, b], c);
    assert [] + [a] == [a] && [a] + [b] == [a, b] && [a, b] + [c] == Hasty(header, body);
    assert Run(issuer, [a, b]) == Run(issuer, [a]) == Memory(Some(body), Some(0), Some(0));
  }

  lemma NoVisits<Key, Header>(issuer: Issuer<Key, Header>)
    ensures Run(issuer, []) == EMPTY && Log(issuer, []) == []
  {}

  lemma VisitAppend<Key, Header>(issuer: Issuer<Key, Header>, visits: seq<Visit<Header>>, v: Visit<Header>)
    ensures Run(issuer, visits + [v]) == After(issuer, Run(issuer, visits), v.now, v.header, v.reply)
    ensures Log(issuer, visits + [v]) == Log(issuer, visits)
      + if Fetches(issuer, Run(issuer, visits), v.now, v.header) then [Fetch(v.now, Accepted(issuer, v.reply))] else []
  {
    assert (visits + [v])[..|visits|] == visits;
  }

  /** A failed fetch is followed by a full cooldown in every run exactly when the time to live is not zero. */
  lemma CooldownHoldsExactly<Key, Header>(issuer: Issuer<Key, Header>, header: Header, body: Bytes)
    requires |body| <= MAX_JWKS_BYTES && issuer.parse(body).Some?
    ensures (forall visits: seq<Visit<Header>> | Monotone(visits) :: Apart(issuer, Log(issuer, visits)))
        <==> issuer.ttl > 0
  {
    if issuer.ttl > 0 {
      forall visits: seq<Visit<Header>> | Monotone(visits) ensures Apart(issuer, Log(issuer, visits)) {
        FetchesApart(issuer, visits);
      }
    } else {
      var log := Log(issuer, Hasty(header, body));
      HastyLog(issuer, header, body);
      assert log[1 + 1].time - log[1].time < REFRESH_COOLDOWN;
      assert !Apart(issuer, log);
    }
  }
}
