/**
 * The Redis client wrapper: a connection flag flipped by two client events, and
 * GET / SETEX / DEL on a server whose keys expire. The server is modelled as a map
 * from key to (value, absolute expiry second) together with the server clock `now`.
 */
module Redis {
  import opened Wrappers

  /** A stored value and the second (on the server clock) from which it is gone. */
  datatype Entry = Entry(value: string, expiresAt: nat)

  /** The two client events the constructor subscribes to. */
  datatype ConnEvent = ErrorEvent | ConnectEvent

  /**
   * The connection flag after a history of events: `true` before any event, and
   * afterwards whatever the handler of the last event wrote.
   */
  function Liveness(events: seq<ConnEvent>): bool
  {
    if events == [] then true else events[|events| - 1] == ConnectEvent
  }

  /** Every error in the history was followed, later on, by a connect. */
  ghost predicate EveryErrorRecovered(events: seq<ConnEvent>)
  {
    forall i :: 0 <= i < |events| && events[i] == ErrorEvent ==>
      exists j :: i < j < |events| && events[j] == ConnectEvent
  }

  /** The flag reads true exactly when no error is still waiting for a reconnect. */
  lemma LivenessIffRecovered(events: seq<ConnEvent>)
    ensures Liveness(events) <==> EveryErrorRecovered(events)
  {
  }

  /** After an error the flag stays down for as long as no connect event arrives. */
  lemma ErrorHoldsUntilConnect(before: seq<ConnEvent>, after: seq<ConnEvent>)
    requires forall i :: 0 <= i < |after| ==> after[i] != ConnectEvent
    ensures !Liveness(before + [ErrorEvent] + after)
  {
  }

  /** A key can be read at `now` when it is stored and its expiry second has not been reached. */
  predicate Live(entries: map<string, Entry>, now: nat, key: string)
  {
    key in entries && now < entries[key].expiresAt
  }

  /** GET: the stored value, or null for a key never set, deleted, or expired. */
  function Lookup(entries: map<string, Entry>, now: nat, key: string): Option<string>
  {
    if Live(entries, now, key) then Some(entries[key].value) else None
  }

  /** SETEX: (over)write the key, its expiry set afresh to `duration` seconds from now. */
  function SetEx(entries: map<string, Entry>, now: nat, key: string, value: string, duration: nat): map<string, Entry>
  {
    entries[key := Entry(value, now + duration)]
  }

  /** DEL: remove the key, if present. */
  function Delete(entries: map<string, Entry>, key: string): map<string, Entry>
  {
    entries - {key}
  }

  /** A value written with SETEX is read back for `duration` seconds and is absent afterwards; other keys read as before. */
  lemma SetExThenLookup(entries: map<string, Entry>, now: nat, key: string, value: string, duration: nat, later: nat)
    requires now <= later
    ensures Lookup(SetEx(entries, now, key, value, duration), later, key)
         == if later < now + duration then Some(value) else None
    ensures forall k :: k != key ==>
      Lookup(SetEx(entries, now, key, value, duration), later, k) == Lookup(entries, later, k)
  {
  }

  /** After DEL the key reads as null at every instant; other keys are untouched; deleting twice, or an absent key, changes nothing more. */
  lemma DeleteThenLookup(entries: map<string, Entry>, key: string, later: nat)
    ensures Lookup(Delete(entries, key), later, key) == None
    ensures forall k :: k != key ==> Lookup(Delete(entries, key), later, k) == Lookup(entries, later, k)
    ensures key !in entries ==> Delete(entries, key) == entries
    ensures Delete(Delete(entries, key), key) == Delete(entries, key)
  {
  }

  /** The largest integer Redis reads as an expiry: a signed 64-bit integer. */
  const MaxInt64: int := 0x7FFF_FFFF_FFFF_FFFF

  /** SETEX accepts an expiry only when it is a positive integer that fits in 64 bits. */
  predicate AcceptedExpiry(duration: int)
  {
    0 < duration <= MaxInt64
  }

  /** One request to the server as the client issues it; `Wait` is time passing between requests. */
  datatype Command =
    | SetCommand(key: string, value: string, duration: int)
    | DelCommand(key: string)
    | Wait(seconds: nat)

  /** The server's state: its keys and its clock. */
  datatype Server = Server(entries: map<string, Entry>, now: nat)

  /** The effect of one command; SETEX with an expiry Redis does not accept is refused and changes nothing. */
  function Apply(s: Server, c: Command): Server
  {
    match c
    case SetCommand(k, v, d) => if AcceptedExpiry(d) then Server(SetEx(s.entries, s.now, k, v, d), s.now) else s
    case DelCommand(k) => Server(Delete(s.entries, k), s.now)
    case Wait(dt) => Server(s.entries, s.now + dt)
  }

  /** The server after a sequence of commands, one at a time. */
  function Run(s: Server, cs: seq<Command>): Server
    decreases |cs|
  {
    if cs == [] then s else Run(Apply(s, cs[0]), cs[1..])
  }

  /** Whether a command writes the key. */
  predicate Writes(c: Command, key: string)
  {
    (c.SetCommand? || c.DelCommand?) && c.key == key
  }

  /** Commands that do not write a key leave its entry exactly as it was; the clock only moves forward. */
  lemma {:induction false} UntouchedKeyKeepsEntry(s: Server, cs: seq<Command>, key: string)
    requires forall i :: 0 <= i < |cs| ==> !Writes(cs[i], key)
    ensures (key in Run(s, cs).entries) == (key in s.entries)
    ensures key in s.entries ==> Run(s, cs).entries[key] == s.entries[key]
    ensures s.now <= Run(s, cs).now
    decreases |cs|
  {
    if cs != [] {
      assert !Writes(cs[0], key);
      assert forall i :: 0 <= i < |cs[1..]| ==> !Writes(cs[1..][i], key) by {
        forall i | 0 <= i < |cs[1..]| ensures !Writes(cs[1..][i], key) {
          assert cs[1..][i] == cs[i + 1];
        }
      }
      UntouchedKeyKeepsEntry(Apply(s, cs[0]), cs[1..], key);
    }
  }

  /** A key that cannot be read now stays unreadable until some command writes it again. */
  lemma ExpiredStaysGone(s: Server, cs: seq<Command>, key: string)
    requires !Live(s.entries, s.now, key)
    requires forall i :: 0 <= i < |cs| ==> !Writes(cs[i], key)
    ensures Lookup(Run(s, cs).entries, Run(s, cs).now, key) == None
  {
    UntouchedKeyKeepsEntry(s, cs, key);
  }

  /**
   * The client wrapper. `connected` is the flag the two event handlers overwrite;
   * `entries` and `now` stand for the Redis server behind the client; `events` is the
   * history of connection events, kept only for the proofs.
   */
  class RedisClient {
    var connected: bool
    var entries: map<string, Entry>
    var now: nat
    ghost var events: seq<ConnEvent>

    ghost predicate Valid()
      reads this
    {
      connected == Liveness(events)
    }

    /** A new client reports itself alive before any event; the server holds what it already held. */
    constructor (initial: map<string, Entry>, clock: nat)
      ensures Valid()
      ensures connected && events == []
      ensures entries == initial && now == clock
    {
      connected := true;
      entries := initial;
      now := clock;
      events := [];
    }

    /** The `error` handler: the flag goes down; the server is untouched. */
    method OnError()
      requires Valid()
      modifies this`connected, this`events
      ensures Valid()
      ensures !connected
      ensures events == old(events) + [ErrorEvent]
    {
      connected := false;
      events := events + [ErrorEvent];
    }

    /** The `connect` handler: the flag goes up, whatever it was. */
    method OnConnect()
      requires Valid()
      modifies this`connected, this`events
      ensures Valid()
      ensures connected
      ensures events == old(events) + [ConnectEvent]
    {
      connected := true;
      events := events + [ConnectEvent];
    }

    /** isAlive: the flag as the event history left it. */
    method IsAlive() returns (alive: bool)
      requires Valid()
      ensures alive == Liveness(events)
    {
      alive := connected;
    }

    /** get: the live value of the key, or null. Changes nothing. */
    method Get(key: string) returns (r: Option<string>)
      ensures r == Lookup(entries, now, key)
    {
      r := Lookup(entries, now, key);
    }

    /**
     * set: SETEX key duration value. Redis refuses an expiry that is not a positive
     * 64-bit integer (the promise rejects), which `ok` reports; only the key's entry can change.
     */
    method Set(key: string, value: string, duration: int) returns (ok: bool)
      requires Valid()
      modifies this`entries
      ensures Valid()
      ensures ok <==> AcceptedExpiry(duration)
      ensures Server(entries, now) == Apply(Server(old(entries), now), SetCommand(key, value, duration))
    {
      ok := AcceptedExpiry(duration);
      if ok {
        entries := SetEx(entries, now, key, value, duration);
      }
    }

    /** del: remove the key; an absent key is not an error. */
    method Del(key: string)
      requires Valid()
      modifies this`entries
      ensures Valid()
      ensures entries == Delete(old(entries), key)
    {
      entries := Delete(entries, key);
    }

    /** Time passing on the server clock between requests. */
    method Advance(seconds: nat)
      requires Valid()
      modifies this`now
      ensures Valid()
      ensures now == old(now) + seconds
    {
      now := now + seconds;
    }
  }
}
