/** References to entities: names joined with "::", parsed into components and printed to a
    given depth. */
module EntityNames {
  import opened SessionState

  const SEP := "::"

  const SEP_LEN := 2

  predicate IsSep(s: string, i: nat) { i + 1 < |s| && s[i] == ':' && s[i + 1] == ':' }

  /** Where the first separator is, or the length of the string without one. */
  function FindSep(s: string): (i: nat)
    ensures i <= |s| && (i < |s| ==> IsSep(s, i))
    ensures forall k :: 0 <= k < i ==> !IsSep(s, k)
  {
    if s == "" || IsSep(s, 0) then 0
    else
      var i := FindSep(s[1..]);
      assert forall k :: 0 < k <= i ==> IsSep(s, k) == IsSep(s[1..], k - 1);
      1 + i
  }

  predicate Leading(s: string) { IsSep(s, 0) }

  predicate HasSep(s: string) { FindSep(s) < |s| }

  /** The components of a reference that does not start with a separator; none if it is empty
      or has an empty component before its end. */
  function Components(s: string): (r: Option<seq<string>>)
    decreases |s|
  {
    var i := FindSep(s);
    if s == "" || (i == 0 && i < |s|) then None
    else if i == |s| then Some([s])
    else if i + SEP_LEN == |s| then Some([s[..i]])
    else
      match Components(s[i + SEP_LEN..])
      case None => None
      case Some(rest) => Some([s[..i]] + rest)
  }

  function Join(names: seq<string>): string {
    if names == [] then ""
    else if |names| == 1 then names[0]
    else names[0] + SEP + Join(names[1..])
  }

  // ----- what the parser makes of a reference -----

  predicate PlainName(name: string) { name != "" && !HasSep(name) }

  /** A list of names that can be told from its reference. */
  predicate Printable(names: seq<string>) {
    && names != []
    && (forall k :: 0 <= k < |names| ==> PlainName(names[k]))
    && (forall k :: 0 <= k < |names| - 1 ==> names[k][|names[k]| - 1] != ':')
  }

  lemma NoSepUpTo(s: string, i: nat)
    requires i == FindSep(s) && 0 < i
    ensures PlainName(s[..i]) && (i < |s| ==> s[i - 1] != ':')
  {
    assert forall k: nat :: k + 1 < i ==> IsSep(s[..i], k) == IsSep(s, k);
    assert !IsSep(s, i - 1);
  }

  lemma ComponentsSplit(rest: string)
    requires Components(rest).Some?
    ensures var i := FindSep(rest);
            && |Components(rest).value| > 0
            && (i == |rest| ==> Components(rest).value == [rest])
            && (i < |rest| ==> i + SEP_LEN <= |rest|)
            && (i + SEP_LEN == |rest| ==> Components(rest).value == [rest[..i]])
            && (i + SEP_LEN < |rest| ==>
                  Components(rest[i + SEP_LEN..]).Some?
                  && Components(rest).value == [rest[..i]] + Components(rest[i + SEP_LEN..]).value)
  {
  }

  lemma PrintableCons(name: string, rest: seq<string>)
    requires PlainName(name) && name[|name| - 1] != ':' && Printable(rest)
    ensures Printable([name] + rest) && Join([name] + rest) == name + SEP + Join(rest)
  {
    assert ([name] + rest)[1..] == rest;
  }

  /** Printing what was parsed gives the reference back, less a separator at its end; and the
      components can be told from it. */
  lemma {:induction false} PrintOfParse(s: string)
    requires Components(s).Some?
    ensures var names := Components(s).value; Printable(names) && (s == Join(names) || s == Join(names) + SEP)
    decreases |s|
  {
    var i := FindSep(s);
    ComponentsSplit(s);
    NoSepUpTo(s, i);
    if i == |s| {
      assert s[..i] == s;
    } else {
      var name, rest := s[..i], s[i + SEP_LEN..];
      assert s == name + SEP + rest;
      if rest != "" {
        PrintOfParse(rest);
        var names := Components(rest).value;
        PrintableCons(name, names);
        assert rest == Join(names) + SEP ==> name + SEP + rest == name + SEP + Join(names) + SEP;
      }
    }
  }

  /** The first separator of a name that does not end in ':' and what follows a separator. */
  lemma FirstSepOf(name: string, rest: string)
    requires PlainName(name) && name[|name| - 1] != ':'
    ensures FindSep(name + SEP + rest) == |name|
  {
    var s := name + SEP + rest;
    assert IsSep(s, |name|) && !IsSep(s, |name| - 1);
    var i := FindSep(s);
    assert i + 1 < |name| ==> IsSep(s, i) == IsSep(name, i);
  }

  lemma {:induction false} JoinNonEmpty(names: seq<string>)
    requires Printable(names)
    ensures Join(names) != ""
  {
  }

  lemma {:induction false} PrintableParses(names: seq<string>)
    requires Printable(names)
    ensures Components(Join(names)) == Some(names) && !Leading(Join(names))
    decreases |names|
  {
    if |names| == 1 {
      assert names == [names[0]];
    } else {
      var rest := names[1..];
      assert Printable(rest) by {
        assert forall k :: 0 <= k < |rest| ==> rest[k] == names[k + 1];
      }
      PrintableParses(rest);
      JoinNonEmpty(rest);
      FirstSepOf(names[0], Join(rest));
      var s := Join(names);
      assert s[..|names[0]|] == names[0] && s[|names[0]| + SEP_LEN..] == Join(rest);
      assert names == [names[0]] + rest;
    }
  }

  /** Parsing a printed list of names gives it back exactly when the list is not empty, no name
      is empty or has a separator in it, and none but the last ends in ':'. */
  lemma ParseOfPrint(names: seq<string>)
    ensures !Leading(Join(names)) && Components(Join(names)) == Some(names) <==> Printable(names)
  {
    if Printable(names) {
      PrintableParses(names);
    }
    if Components(Join(names)) == Some(names) {
      PrintOfParse(Join(names));
    }
  }

  /** Printing to depth `k` and parsing gives the first `k` components. */
  lemma ParseOfPrefix(names: seq<string>, k: nat)
    requires Printable(names) && 0 < k <= |names|
    ensures Components(Join(names[..k])) == Some(names[..k])
  {
    PrintableParses(names[..k]);
  }

  // ----- which references are valid -----

  predicate FourColons(s: string, i: nat) { IsSep(s, i) && IsSep(s, i + 2) }

  ghost predicate HasFourColons(s: string) { exists i: nat :: FourColons(s, i) }

  lemma SepAfter(s: string, n: nat, k: nat)
    requires n <= |s|
    ensures IsSep(s[n..], k) == IsSep(s, n + k)
  {
  }

  /** Four colons in a row are at the first separator or after it. */
  lemma FourColonsAt(s: string, j: nat, i: nat)
    requires i == FindSep(s) && i < |s| && FourColons(s, j)
    ensures Leading(s[i + SEP_LEN..]) || (j >= i + SEP_LEN && FourColons(s[i + SEP_LEN..], j - (i + SEP_LEN)))
  {
    assert j >= i;
    SepAfter(s, i + SEP_LEN, 0);
    if j >= i + SEP_LEN {
      SepAfter(s, i + SEP_LEN, j - (i + SEP_LEN));
      SepAfter(s, i + SEP_LEN, j + 2 - (i + SEP_LEN));
    }
  }

  /** A reference that does not start with a separator is valid exactly when it is not empty
      and has no four colons in a row. */
  lemma {:induction false} ValidExactly(s: string)
    requires !Leading(s)
    ensures Components(s).Some? <==> s != "" && !HasFourColons(s)
    decreases |s|
  {
    var i := FindSep(s);
    if i == |s| {
      assert forall k: nat :: k < |s| ==> !IsSep(s, k);
    } else {
      var rest := s[i + SEP_LEN..];
      if j: nat :| FourColons(s, j) {
        FourColonsAt(s, j, i);
      }
      if Leading(rest) {
        assert FourColons(s, i);
      } else {
        if j: nat :| FourColons(rest, j) {
          assert FourColons(s, i + SEP_LEN + j);
        }
        if rest != "" {
          ValidExactly(rest);
        }
      }
    }
  }

  // ----- the counter's loop -----

  /** The counter between two turns: where it is in the reference, how many components it has
      counted, how much of the start it has skipped, and whether another turn comes. */
  datatype Counter = Counter(head: nat, count: nat, start: nat, more: bool, valid: bool)

  /** One turn of the counter. A separator at the very start is skipped by `start` only. */
  function Turn(s: string, c: Counter): Counter
    requires c.head <= |s|
  {
    var i := FindSep(s[c.head..]);
    var found := i < |s| - c.head;
    if found && i == 0 && c.head == 0 then c.(start := c.start + SEP_LEN)
    else if found && i == 0 then c.(more := false, valid := false)
    else
      var head := if found then c.head + i + SEP_LEN else |s|;
      c.(head := head, count := c.count + 1, more := found && head < |s|)
  }

  function Turns(s: string, c: Counter, n: nat): (r: Counter)
    requires c.head <= |s|
    ensures r.head <= |s|
    decreases n
  {
    if n == 0 || !c.more then c else Turns(s, Turn(s, c), n - 1)
  }

  const AT_START := Counter(0, 0, 0, true, true)

  lemma {:induction false} TurnsEnd(s: string, c: Counter) returns (n: nat)
    requires c.head <= |s| && (c.head == 0 ==> !Leading(s))
    ensures !Turns(s, c, n).more
    decreases c.more, |s| - c.head
  {
    n := 0;
    if c.more {
      assert s[0..] == s;
      var d := Turn(s, c);
      if d.more {
        n := TurnsEnd(s, d);
        n := n + 1;
      } else {
        n := 1;
      }
    }
  }

  lemma {:induction false} LeadingStays(s: string, start: nat, n: nat)
    requires Leading(s)
    ensures Turns(s, AT_START.(start := start), n) == AT_START.(start := start + SEP_LEN * n)
    decreases n
  {
    if n > 0 {
      assert s[0..] == s;
      LeadingStays(s, start + SEP_LEN, n - 1);
    }
  }

  /** The counter comes to an end exactly for references that do not start with a separator;
      on one that does it stays at the start for ever. */
  lemma CounterEndsExactly(s: string)
    requires s != ""
    ensures (exists n :: !Turns(s, AT_START, n).more) <==> !Leading(s)
  {
    if Leading(s) {
      forall n: nat
        ensures Turns(s, AT_START, n).more
      {
        LeadingStays(s, 0, n);
      }
    } else {
      var n := TurnsEnd(s, AT_START);
    }
  }

  // ----- parsing and printing in place -----

  /** Where the first separator at or after `from` is, or the length of the string. */
  method StrStr(s: string, from: nat) returns (i: nat)
    requires from <= |s|
    ensures i == from + FindSep(s[from..])
  {
    i := from;
    while i < |s| && !(i + 1 < |s| && s[i] == ':' && s[i + 1] == ':')
      invariant from <= i <= |s|
      invariant from + FindSep(s[from..]) == i + FindSep(s[i..])
    {
      assert s[i..][1..] == s[i + 1..];
      assert IsSep(s[i..], 0) == IsSep(s, i);
      i := i + 1;
    }
    assert i < |s| ==> IsSep(s[i..], 0);
  }

  /** What is left to count makes up for what has been counted. */
  predicate Counting(s: string, head: nat, count: nat) {
    head <= |s| &&
    if head == |s| then Components(s).Some? && |Components(s).value| == count
    else
      var rest := Components(s[head..]);
      if Components(s).Some? then rest.Some? && |Components(s).value| == count + |rest.value| else rest.None?
  }

  method CountRefComponents(s: string) returns (valid: bool, count: nat, len: nat, start: nat)
    requires !Leading(s)
    ensures valid <==> Components(s).Some?
    ensures valid ==> count == |Components(s).value| && len == |s|
    ensures !valid ==> count == 0 && len == 0
    ensures start == 0
  {
    valid, count, len, start := false, 0, 0, 0;
    if |s| == 0 {
      return;
    }
    var head: nat, n: nat, more := 0, 0, true;
    assert s[0..] == s;
    while more
      invariant Counting(s, head, n) && (more <==> head < |s|) && (head == 0 ==> n == 0)
      decreases |s| - head, more
    {
      var sep := StrStr(s, head);
      if sep < |s| {
        if sep == head {
          return;
        }
        assert s[head..][sep - head + SEP_LEN..] == s[sep + SEP_LEN..];
        head := sep + SEP_LEN;
      } else {
        head := |s|;
      }
      n := n + 1;
      more := sep < |s| && head < |s|;
    }
    valid, count, len := true, n, |s|;
  }

  /** What was split off so far, and what is left of the reference, make up `all`. */
  predicate Splitting(all: seq<string>, s: string, done: seq<string>, head: nat, remaining: nat) {
    if remaining == 0 then all == done
    else head + remaining == |s| && Components(s[head..]).Some? && all == done + Components(s[head..]).value
  }

  lemma SplitSlices(s: string, head: nat, i: nat)
    requires head + i + SEP_LEN <= |s|
    ensures s[head..][..i] == s[head..head + i] && s[head..][i + SEP_LEN..] == s[head + i + SEP_LEN..]
  {
  }

  lemma Regroup<T>(a: seq<T>, x: T, b: seq<T>)
    ensures a + ([x] + b) == a + [x] + b
  {
  }

  lemma SplitLast(all: seq<string>, s: string, done: seq<string>, head: nat, remaining: nat)
    requires Splitting(all, s, done, head, remaining) && remaining > 0
    ensures |done| < |all|
    ensures head + FindSep(s[head..]) == |s| ==> Splitting(all, s, done + [s[head..]], head, 0)
  {
    ComponentsSplit(s[head..]);
  }

  lemma SplitInner(all: seq<string>, s: string, done: seq<string>, head: nat, remaining: nat)
    requires Splitting(all, s, done, head, remaining) && remaining > 0 && head + FindSep(s[head..]) < |s|
    ensures var i := FindSep(s[head..]);
            i + SEP_LEN <= remaining && Splitting(all, s, done + [s[head..head + i]], head + i + SEP_LEN, remaining - (i + SEP_LEN))
  {
    var rest := s[head..];
    var i := FindSep(rest);
    ComponentsSplit(rest);
    SplitSlices(s, head, i);
    if i + SEP_LEN < |rest| {
      var more := Components(rest[i + SEP_LEN..]).value;
      Regroup(done, rest[..i], more);
      Remains(all, s, done + [rest[..i]], head + i + SEP_LEN, more);
    }
  }

  lemma Remains(all: seq<string>, s: string, done: seq<string>, head: nat, more: seq<string>)
    requires head < |s| && Components(s[head..]) == Some(more) && all == done + more
    ensures Splitting(all, s, done, head, |s| - head)
  {
  }

  class EntityName {
    var components: array<string>

    constructor ()
      ensures components[..] == []
    {
      components := new string[0];
    }

    /** Splits off the next component; what remains never goes below zero. */
    static method SplitOne(s: string, ghost all: seq<string>, ghost done: seq<string>, head: nat, remaining: nat)
      returns (part: string, next: nat, left: nat)
      requires remaining > 0 && Splitting(all, s, done, head, remaining)
      ensures |done| < |all| && Splitting(all, s, done + [part], next, left)
    {
      var end := StrStr(s, head);
      SplitLast(all, s, done, head, remaining);
      if end < |s| {
        SplitInner(all, s, done, head, remaining);
        return s[head..end], end + SEP_LEN, remaining - (end - head + SEP_LEN);
      } else {
        return s[head..], head, 0;
      }
    }

    /** Splits the components off one by one; every place allocated is filled. */
    static method Split(s: string, ghost all: seq<string>, parts: array<string>, len: nat)
      requires Splitting(all, s, [], 0, len) && parts.Length == |all|
      modifies parts
      ensures parts[..] == all
    {
      var remaining: nat, i: nat, head: nat := len, 0, 0;
      while i < parts.Length && remaining > 0
        invariant i <= parts.Length && Splitting(all, s, parts[..i], head, remaining)
        decreases parts.Length - i
      {
        ghost var before := parts[..i];
        parts[i], head, remaining := SplitOne(s, all, before, head, remaining);
        assert parts[..i + 1] == before + [parts[i]];
        i := i + 1;
      }
      if remaining > 0 {
        SplitLast(all, s, parts[..i], head, remaining);
      }
      assert parts[..parts.Length] == parts[..];
    }

    /** Counts the components, allocates as many and splits the reference into them. */
    static method ParseRefComponents(s: string) returns (ok: bool, parts: array<string>)
      requires !Leading(s)
      ensures fresh(parts)
      ensures ok <==> Components(s).Some?
      ensures ok ==> parts[..] == Components(s).value
    {
      var size, len, start;
      ok, size, len, start := CountRefComponents(s);
      parts := new string[size];
      if ok {
        assert s[0..] == s && [] + Components(s).value == Components(s).value;
        Split(s, Components(s).value, parts, len);
      }
    }

    /** Makes this the name that a reference stands for; a bad reference leaves it as it was. */
    method FromRef(s: string) returns (ok: bool)
      requires !Leading(s)
      modifies this
      ensures ok <==> Components(s).Some?
      ensures if ok then components[..] == Components(s).value else components == old(components)
    {
      var parts;
      ok, parts := ParseRefComponents(s);
      if ok {
        components := parts;
      }
    }

    /** Prints the first `maxDepth` components, first measuring and then filling the buffer. */
    method ToRef(maxDepth: nat) returns (ok: bool, ref: string)
      ensures ok <==> maxDepth <= components.Length
      ensures ok ==> ref == Join(components[..maxDepth])
    {
      if maxDepth > components.Length {
        return false, "";
      }
      var len: nat, i: nat := 0, 0;
      while i < maxDepth
        invariant i <= maxDepth && len == |Join(components[..i])|
      {
        JoinSnoc(components[..i], components[i]);
        assert components[..i + 1] == components[..i] + [components[i]];
        if i > 0 {
          len := len + SEP_LEN;
        }
        len := len + |components[i]|;
        i := i + 1;
      }
      var buffer := new char[len];
      var head: nat := 0;
      i := 0;
      while i < maxDepth && head < len
        invariant i <= maxDepth && head <= len && buffer[..head] == Join(components[..i])
        invariant len == |Join(components[..maxDepth])|
      {
        JoinSnoc(components[..i], components[i]);
        assert components[..i + 1] == components[..i] + [components[i]];
        JoinGrows(components[..maxDepth], i + 1);
        assert components[..maxDepth][..i + 1] == components[..i + 1];
        if i > 0 {
          head := Copy(buffer, head, SEP);
        }
        head := Copy(buffer, head, components[i]);
        i := i + 1;
      }
      JoinGrows(components[..maxDepth], i);
      assert components[..maxDepth][..i] == components[..i];
      assert buffer[..head] == buffer[..];
      return true, buffer[..];
    }

    static method Copy(buffer: array<char>, at: nat, s: string) returns (head: nat)
      requires at + |s| <= buffer.Length
      modifies buffer
      ensures head == at + |s| && buffer[..head] == old(buffer[..at]) + s
    {
      forall k | 0 <= k < |s| {
        buffer[at + k] := s[k];
      }
      head := at + |s|;
    }
  }

  lemma {:induction false} JoinSnoc(names: seq<string>, name: string)
    ensures Join(names + [name]) == if names == [] then name else Join(names) + SEP + name
    decreases |names|
  {
    if |names| > 1 {
      assert (names + [name])[1..] == names[1..] + [name];
      JoinSnoc(names[1..], name);
    } else if |names| == 1 {
      assert (names + [name])[1..] == [name];
    }
  }

  /** The reference to depth `k` is a prefix of the whole one. */
  lemma {:induction false} JoinGrows(names: seq<string>, k: nat)
    requires k <= |names|
    ensures Join(names[..k]) <= Join(names)
    decreases |names| - k
  {
    if k < |names| {
      JoinSnoc(names[..k], names[k]);
      assert names[..k + 1] == names[..k] + [names[k]];
      JoinGrows(names, k + 1);
    } else {
      assert names[..k] == names;
    }
  }
}
