/** The agent's table of which client is behind which locator: an array searched from its front,
    changed in place and grown by one, that stands for a finite map. */
module Mappings {
  import opened SessionState

  type Locator = nat

  type ClientKey = nat

  /** The invalid client key. */
  const INVALID_KEY: ClientKey := 0

  datatype Mapping = Mapping(locator: Locator, key: ClientKey)

  function IndexOf(ms: seq<Mapping>, loc: Locator): (i: nat)
    ensures i <= |ms| && (i < |ms| ==> ms[i].locator == loc)
    ensures forall k :: 0 <= k < i ==> ms[k].locator != loc
  {
    if ms == [] || ms[0].locator == loc then 0 else 1 + IndexOf(ms[1..], loc)
  }

  function Lookup(ms: seq<Mapping>, loc: Locator): Option<ClientKey> {
    var i := IndexOf(ms, loc);
    if i < |ms| then Some(ms[i].key) else None
  }

  /** The map an array of mappings stands for: of several entries for a locator the first. */
  function AsMap(ms: seq<Mapping>): map<Locator, ClientKey> {
    if ms == [] then map[] else AsMap(ms[1..])[ms[0].locator := ms[0].key]
  }

  predicate OnePerLocator(ms: seq<Mapping>) {
    forall i, j :: 0 <= i < j < |ms| ==> ms[i].locator != ms[j].locator
  }

  /** The array after a client's mapping is cached. */
  function Cached(ms: seq<Mapping>, loc: Locator, key: ClientKey): seq<Mapping> {
    var i := IndexOf(ms, loc);
    if i < |ms| then ms[i := Mapping(loc, key)] else ms + [Mapping(loc, key)]
  }

  // ----- a client is created -----

  /** A CREATE_CLIENT message: where it came from, the key in its header, if any, and the key in
      its payload. */
  datatype Message = Message(source: Locator, header: Option<ClientKey>, payload: ClientKey)

  datatype Decision = Rejected | Accepted(cache: bool)

  /** Whether the message is taken, and whether its mapping is to be cached: when the locator was
      not looked up or not found, or its mapping names another key. */
  function Decide(ms: seq<Mapping>, auto: bool, m: Message): Decision {
    if m.header.Some? then
      if m.header.value == INVALID_KEY || m.header.value != m.payload then Rejected else Accepted(true)
    else
      match Lookup(ms, m.source)
      case None => if auto then Accepted(true) else Rejected
      case Some(key) => Accepted(key != INVALID_KEY && key != m.payload)
  }

  function Opened(ms: seq<Mapping>, auto: bool, m: Message): seq<Mapping> {
    var d := Decide(ms, auto, m);
    if d.Accepted? && d.cache then Cached(ms, m.source, m.payload) else ms
  }

  function OpenAll(ms: seq<Mapping>, auto: bool, messages: seq<Message>): seq<Mapping>
    decreases |messages|
  {
    if messages == [] then ms else OpenAll(Opened(ms, auto, messages[0]), auto, messages[1..])
  }

  // ----- the array stands for the map -----

  lemma {:induction false} LookupIsMap(ms: seq<Mapping>, loc: Locator)
    ensures Lookup(ms, loc) == if loc in AsMap(ms) then Some(AsMap(ms)[loc]) else None
  {
    if ms != [] {
      LookupIsMap(ms[1..], loc);
    }
  }

  lemma {:induction false} CachedIsUpdate(ms: seq<Mapping>, loc: Locator, key: ClientKey)
    ensures AsMap(Cached(ms, loc, key)) == AsMap(ms)[loc := key]
  {
    if ms == [] {
      assert Cached(ms, loc, key) == [Mapping(loc, key)] && [Mapping(loc, key)][1..] == [];
    } else if ms[0].locator == loc {
      assert Cached(ms, loc, key)[1..] == ms[1..];
    } else {
      CachedIsUpdate(ms[1..], loc, key);
      assert Cached(ms, loc, key)[1..] == Cached(ms[1..], loc, key) && Cached(ms, loc, key)[0] == ms[0];
    }
  }

  lemma CachedKeepsOne(ms: seq<Mapping>, loc: Locator, key: ClientKey)
    requires OnePerLocator(ms)
    ensures OnePerLocator(Cached(ms, loc, key))
  {
  }

  /** Whether a client's message is taken, said of the map: a key in its header must be valid and
      the payload's; without one its locator must be known, or any client welcome. */
  predicate Acceptable(m: map<Locator, ClientKey>, auto: bool, msg: Message) {
    if msg.header.Some? then msg.header.value != INVALID_KEY && msg.header.value == msg.payload
    else auto || msg.source in m
  }

  /** A message is accepted exactly when it is acceptable; an accepted one without a header key is
      cached exactly when its locator is unknown or leads to a valid key of another client. */
  lemma DecidesExactly(ms: seq<Mapping>, auto: bool, m: Message)
    ensures Decide(ms, auto, m).Accepted? <==> Acceptable(AsMap(ms), auto, m)
    ensures Decide(ms, auto, m).Accepted? ==>
              (Decide(ms, auto, m).cache <==>
               m.header.Some? || (m.source in AsMap(ms) ==> AsMap(ms)[m.source] != INVALID_KEY && AsMap(ms)[m.source] != m.payload))
  {
    LookupIsMap(ms, m.source);
  }

  /** After a client was accepted its locator leads to its key, and all other locators lead
      where they led, exactly unless the locator's mapping names the invalid key and the header
      none. */
  lemma OpenedLeadsToKey(ms: seq<Mapping>, auto: bool, m: Message, loc: Locator)
    requires m.payload != INVALID_KEY && Decide(ms, auto, m).Accepted?
    ensures Lookup(Opened(ms, auto, m), m.source) == Some(m.payload)
            <==> !(m.header.None? && Lookup(ms, m.source) == Some(INVALID_KEY))
    ensures loc != m.source ==> Lookup(Opened(ms, auto, m), loc) == Lookup(ms, loc)
  {
    CachedIsUpdate(ms, m.source, m.payload);
    LookupIsMap(ms, loc);
    LookupIsMap(Opened(ms, auto, m), loc);
    LookupIsMap(ms, m.source);
    LookupIsMap(Opened(ms, auto, m), m.source);
  }

  ghost predicate KeysValid(ms: seq<Mapping>) { forall i :: 0 <= i < |ms| ==> ms[i].key != INVALID_KEY }

  /** The map that a run of messages makes of a map: each accepted one sets its locator's key. */
  function Meant(m: map<Locator, ClientKey>, auto: bool, messages: seq<Message>): map<Locator, ClientKey>
    decreases |messages|
  {
    if messages == [] then m
    else
      var msg := messages[0];
      var taken := if msg.header.Some? then msg.header.value == msg.payload else auto || msg.source in m;
      Meant(if taken then m[msg.source := msg.payload] else m, auto, messages[1..])
  }

  lemma OpenedValid(ms: seq<Mapping>, auto: bool, m: Message)
    requires OnePerLocator(ms) && KeysValid(ms) && m.payload != INVALID_KEY
    ensures OnePerLocator(Opened(ms, auto, m)) && KeysValid(Opened(ms, auto, m))
    ensures AsMap(Opened(ms, auto, m)) ==
            if (if m.header.Some? then m.header.value == m.payload else auto || m.source in AsMap(ms))
            then AsMap(ms)[m.source := m.payload] else AsMap(ms)
  {
    CachedKeepsOne(ms, m.source, m.payload);
    CachedIsUpdate(ms, m.source, m.payload);
    LookupIsMap(ms, m.source);
    if Lookup(ms, m.source) == Some(m.payload) {
      assert AsMap(ms) == AsMap(ms)[m.source := m.payload];
    }
  }

  /** Over any run of clients the array stands for the map that remembers the key of the last
      client accepted from each locator, with one entry a locator. */
  lemma {:induction false} RunIsMap(ms: seq<Mapping>, auto: bool, messages: seq<Message>)
    requires OnePerLocator(ms) && KeysValid(ms) && forall k :: 0 <= k < |messages| ==> messages[k].payload != INVALID_KEY
    ensures OnePerLocator(OpenAll(ms, auto, messages)) && KeysValid(OpenAll(ms, auto, messages))
    ensures AsMap(OpenAll(ms, auto, messages)) == Meant(AsMap(ms), auto, messages)
    decreases |messages|
  {
    if messages != [] {
      OpenedValid(ms, auto, messages[0]);
      RunIsMap(Opened(ms, auto, messages[0]), auto, messages[1..]);
    }
  }

  /** In any run each message is accepted exactly when the map of the clients accepted before it
      makes it acceptable. */
  lemma RunDecides(ms: seq<Mapping>, auto: bool, messages: seq<Message>, k: nat)
    requires OnePerLocator(ms) && KeysValid(ms) && k < |messages|
    requires forall j :: 0 <= j < |messages| ==> messages[j].payload != INVALID_KEY
    ensures Decide(OpenAll(ms, auto, messages[..k]), auto, messages[k]).Accepted?
            <==> Acceptable(Meant(AsMap(ms), auto, messages[..k]), auto, messages[k])
  {
    RunIsMap(ms, auto, messages[..k]);
    DecidesExactly(OpenAll(ms, auto, messages[..k]), auto, messages[k]);
  }

  lemma {:induction false} OpenAllGrows(ms: seq<Mapping>, auto: bool, messages: seq<Message>, loc: Locator)
    requires loc in AsMap(ms)
    ensures loc in AsMap(OpenAll(ms, auto, messages))
    decreases |messages|
  {
    if messages != [] {
      CachedIsUpdate(ms, messages[0].source, messages[0].payload);
      OpenAllGrows(Opened(ms, auto, messages[0]), auto, messages[1..], loc);
    }
  }

  /** A client accepted once is accepted from the same locator for good, its header key or none. */
  lemma AcceptedComesBack(ms: seq<Mapping>, auto: bool, m: Message, messages: seq<Message>, again: Message)
    requires Decide(ms, auto, m).Accepted? && again.source == m.source && again.payload == m.payload
    requires again.header == m.header || again.header.None?
    ensures Decide(OpenAll(Opened(ms, auto, m), auto, messages), auto, again).Accepted?
  {
    var end := OpenAll(Opened(ms, auto, m), auto, messages);
    DecidesExactly(ms, auto, m);
    DecidesExactly(end, auto, again);
    CachedIsUpdate(ms, m.source, m.payload);
    if again.header.None? {
      OpenAllGrows(Opened(ms, auto, m), auto, messages, m.source);
    }
  }

  // ----- in place -----

  class LocatorTable {
    var entries: array<Mapping>

    constructor (given: array<Mapping>)
      ensures entries == given
    {
      entries := given;
    }

    method FindMapping(loc: Locator) returns (i: nat)
      ensures i == IndexOf(entries[..], loc)
    {
      i := 0;
      while i < entries.Length && entries[i].locator != loc
        invariant i <= entries.Length
        invariant IndexOf(entries[..], loc) == i + IndexOf(entries[i..], loc)
      {
        assert entries[i..][1..] == entries[i + 1..];
        i := i + 1;
      }
    }

    /** Sets the locator's entry, or adds one to an array grown by one. */
    method CacheMapping(loc: Locator, key: ClientKey)
      modifies this, entries
      ensures entries[..] == Cached(old(entries[..]), loc, key)
      ensures entries == old(entries) || fresh(entries)
    {
      var i := FindMapping(loc);
      if i == entries.Length {
        var more := new Mapping[i + 1](k requires 0 <= k reads this, entries => if k < entries.Length then entries[k] else Mapping(loc, key));
        assert more[..] == entries[..] + [Mapping(loc, key)];
        entries := more;
      } else {
        entries[i] := Mapping(loc, key);
      }
    }

    /** Takes a CREATE_CLIENT message up to the opening of the client's session. */
    method OpenClient(auto: bool, m: Message) returns (accepted: bool)
      modifies this, entries
      ensures accepted == Decide(old(entries[..]), auto, m).Accepted?
      ensures entries[..] == Opened(old(entries[..]), auto, m)
    {
      var cache := true;
      if m.header.Some? {
        if m.header.value == INVALID_KEY || m.header.value != m.payload {
          return false;
        }
      } else {
        var i := FindMapping(m.source);
        if i == entries.Length {
          if !auto {
            return false;
          }
        } else {
          cache := entries[i].key != INVALID_KEY && entries[i].key != m.payload;
        }
      }
      if cache {
        CacheMapping(m.source, m.payload);
      }
      return true;
    }
  }
}
