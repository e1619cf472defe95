/** The sliding-window login limiter: what one call does to its table, and the in-place filter it
    uses. */
module LoginLimiter {
  import opened Basics

  const MAX_TRACKED: nat := 10_000

  /** The attempts later than an instant, in order. */
  function Later(ts: seq<int>, cutoff: int): (r: seq<int>)
    ensures |r| <= |ts|
  {
    if ts == [] then []
    else
      var rest := Later(ts[..|ts| - 1], cutoff);
      var last := ts[|ts| - 1];
      if last > cutoff then rest + [last] else rest
  }

  lemma LaterAppend(ts: seq<int>, t: int, cutoff: int)
    ensures Later(ts + [t], cutoff) == if t > cutoff then Later(ts, cutoff) + [t] else Later(ts, cutoff)
  {
  }

  /** Filtering by an earlier instant first makes no difference. */
  lemma {:induction false} LaterTwice(ts: seq<int>, c: int, d: int)
    requires c <= d
    ensures Later(Later(ts, c), d) == Later(ts, d)
  {
    if ts != [] {
      var init, last := ts[..|ts| - 1], ts[|ts| - 1];
      LaterTwice(init, c, d);
      if last > c {
        LaterAppend(Later(init, c), last, d);
      }
    }
  }

  lemma {:induction false} LaterShrinks(ts: seq<int>, c: int, d: int)
    requires c <= d
    ensures |Later(ts, d)| <= |Later(ts, c)|
  {
    LaterTwice(ts, c, d);
  }

  // ---------------------------------------------------------------- one call

  type Table = map<string, seq<int>>

  function Entries(table: Table, ip: string): seq<int>
  {
    if ip in table then table[ip] else []
  }

  function AfterReset(table: Table): Table
  {
    if |table| > MAX_TRACKED then map[] else table
  }

  predicate HasRoom(entries: seq<int>, limit: int, window: int, now: int)
  {
    |Later(entries, now - window)| < limit
  }

  predicate Permits(table: Table, limit: int, window: int, ip: string, now: int)
  {
    HasRoom(Entries(AfterReset(table), ip), limit, window, now)
  }

  /** What is left in the window, with the new reading if there is room for it. */
  function Renewed(entries: seq<int>, limit: int, window: int, now: int): seq<int>
  {
    var kept := Later(entries, now - window);
    if |kept| < limit then kept + [now] else kept
  }

  function Next(table: Table, limit: int, window: int, ip: string, now: int): Table
  {
    AfterReset(table)[ip := Renewed(Entries(AfterReset(table), ip), limit, window, now)]
  }

  // ---------------------------------------------------------------- the object

  /** A slice: the first len elements of a buffer. */
  datatype Slice = Slice(buffer: array<int>, len: nat)

  /** Moves the attempts later than cutoff to the front of the same buffer. A write never reaches an
      element that has not been read. */
  method FilterInPlace(a: array<int>, n: nat, cutoff: int) returns (k: nat)
    requires n <= a.Length
    modifies a
    ensures k <= n && a[..k] == Later(old(a[..n]), cutoff)
    ensures forall i :: n <= i < a.Length ==> a[i] == old(a[i])
  {
    k := 0;
    ghost var was := a[..n];
    for i := 0 to n
      invariant k <= i
      invariant a[..k] == Later(was[..i], cutoff)
      invariant forall j :: i <= j < a.Length ==> a[j] == old(a[j])
    {
      ghost var kept := a[..k];
      LaterAppend(was[..i], was[i], cutoff);
      if a[i] > cutoff {
        a[k] := a[i];
        k := k + 1;
        assert a[..k] == kept + [was[i]];
      }
      assert was[..i + 1] == was[..i] + [was[i]];
    }
    assert was[..n] == was;
  }

  class Limiter {
    var attempts: map<string, Slice>
    const limit: int
    const window: int

    /** Every address has a buffer of its own. */
    ghost predicate Valid()
      reads this
    {
      && (forall ip :: ip in attempts ==> attempts[ip].len <= attempts[ip].buffer.Length)
      && (forall x, y :: x in attempts && y in attempts && x != y ==> attempts[x].buffer != attempts[y].buffer)
    }

    ghost function Contents(): Table
      requires Valid()
      reads this, set ip | ip in attempts :: attempts[ip].buffer
    {
      map ip | ip in attempts :: attempts[ip].buffer[..attempts[ip].len]
    }

    constructor (limit: int, window: int)
      ensures Valid() && Contents() == map[] && this.limit == limit && this.window == window
    {
      this.limit, this.window, attempts := limit, window, map[];
    }

    method Allow(ip: string, now: int) returns (ok: bool)
      requires Valid()
      modifies this, set i | i in attempts :: attempts[i].buffer
      ensures Valid()
      ensures forall i :: i in attempts ==>
                fresh(attempts[i].buffer) || (i in old(attempts) && attempts[i].buffer == old(attempts)[i].buffer)
      ensures ok <==> Permits(old(Contents()), limit, window, ip, now)
      ensures Contents() == Next(old(Contents()), limit, window, ip, now)
    {
      assert Contents().Keys == attempts.Keys;
      if |attempts| > MAX_TRACKED {
        attempts := map[];
      }
      ok := Admit(ip, now);
    }

    /** The same without the reset. */
    method Admit(ip: string, now: int) returns (ok: bool)
      requires Valid()
      modifies this, set i | i in attempts :: attempts[i].buffer
      ensures Valid()
      ensures forall i :: i in attempts ==>
                fresh(attempts[i].buffer) || (i in old(attempts) && attempts[i].buffer == old(attempts)[i].buffer)
      ensures ok <==> HasRoom(Entries(old(Contents()), ip), limit, window, now)
      ensures Contents() == old(Contents())[ip := Renewed(Entries(old(Contents()), ip), limit, window, now)]
    {
      ghost var table, slices := Contents(), attempts;
      var slice := Load(ip);
      assert forall i :: i in slices && i != ip ==> slices[i].buffer != slice.buffer;
      var renewed;
      renewed, ok := Renew(slice, limit, window, now);
      assert forall i :: i in slices && i != ip ==>
        slices[i].buffer != renewed.buffer && slices[i].buffer[..slices[i].len] == table[i];
      Assign(ip, renewed, table);
    }

    /** The slice held for an address, or an empty one. */
    method Load(ip: string) returns (s: Slice)
      requires Valid()
      ensures s.len <= s.buffer.Length && s.buffer[..s.len] == Entries(Contents(), ip)
      ensures if ip in attempts then s == attempts[ip] else fresh(s.buffer)
    {
      if ip in attempts {
        return attempts[ip];
      }
      var empty := new int[0];
      return Slice(empty, 0);
    }

    /** Stores the slice for one address; table holds what the other addresses have. */
    method Assign(ip: string, s: Slice, ghost table: Table)
      requires Valid() && s.len <= s.buffer.Length && table.Keys == attempts.Keys
      requires forall i :: i in attempts && i != ip ==>
                 attempts[i].buffer != s.buffer && attempts[i].buffer[..attempts[i].len] == table[i]
      modifies this`attempts
      ensures Valid() && attempts == old(attempts)[ip := s]
      ensures Contents() == table[ip := s.buffer[..s.len]]
    {
      attempts := attempts[ip := s];
      SameTable(Contents(), table, ip, s.buffer[..s.len]);
    }
  }

  lemma SameTable(after: Table, table: Table, ip: string, entry: seq<int>)
    requires after.Keys == table.Keys + {ip} && after[ip] == entry
    requires forall i :: i in table && i != ip ==> after[i] == table[i]
    ensures after == table[ip := entry]
  {
  }

  /** Drops what has left the window from the slice and, if there is room, adds the new reading. */
  method Renew(s: Slice, limit: int, window: int, now: int) returns (r: Slice, ok: bool)
    requires s.len <= s.buffer.Length
    modifies s.buffer
    ensures r.buffer == s.buffer || fresh(r.buffer)
    ensures r.len <= r.buffer.Length
    ensures ok <==> HasRoom(old(s.buffer[..s.len]), limit, window, now)
    ensures r.buffer[..r.len] == Renewed(old(s.buffer[..s.len]), limit, window, now)
  {
    var k := FilterInPlace(s.buffer, s.len, now - window);
    ok := k < limit;
    r := Slice(s.buffer, k);
    if ok {
      r := Append(r, now);
    }
  }

  /** Appending writes into spare capacity or moves to a larger buffer. */
  method Append(s: Slice, now: int) returns (r: Slice)
    requires s.len <= s.buffer.Length
    modifies s.buffer
    ensures r.buffer == s.buffer || fresh(r.buffer)
    ensures r.len == s.len + 1 <= r.buffer.Length
    ensures r.buffer[..r.len] == old(s.buffer[..s.len]) + [now]
  {
    var buffer := s.buffer;
    if s.len == s.buffer.Length {
      buffer := new int[2 * s.len + 1];
      for i := 0 to s.len
        invariant fresh(buffer) && s.buffer[..] == old(s.buffer[..])
        invariant forall j :: 0 <= j < i ==> buffer[j] == s.buffer[j]
      {
        buffer[i] := s.buffer[i];
      }
    }
    buffer[s.len] := now;
    r := Slice(buffer, s.len + 1);
  }
}
