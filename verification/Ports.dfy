/** The port pool of the service controller: cmd/service-controller/ports.go.

    The free ports are kept as a list of ranges.  The methods below edit that list the way the
    source does; their contracts speak only about the SET of ports the list denotes, and
    `NormalFormIsCanonical` shows that the set determines the list. */
module Ports {
  import opened Prelude

  const MIN_PORT := 1024
  const MAX_PORT := 65535

  predicate Within(low: int, p: int, high: int) {
    low <= p <= high
  }

  /** The ports from `low` to `high`. */
  ghost function Span(low: int, high: int): set<int> {
    set p | low <= p <= high && Within(low, p, high)
  }

  datatype PortRange = PortRange(start: int, end: int) {
    predicate Contains(port: int) {
      Within(start, port, end)
    }

    function Size(): int {
      end - start + 1
    }

    ghost function Ports(): set<int> {
      Span(start, end)
    }
  }

  /** The ports a list of ranges denotes. */
  ghost function Denotes(s: seq<PortRange>): set<int> {
    if s == [] then {} else s[0].Ports() + Denotes(s[1..])
  }

  /** Non-empty ranges, in order, with at least one port missing between neighbours. */
  ghost predicate Normal(s: seq<PortRange>) {
    && (forall i | 0 <= i < |s| :: s[i].start <= s[i].end)
    && (forall i, j | 0 <= i < j < |s| :: s[i].end + 1 < s[j].start)
  }

  /** Every range of `a` ends at least two below `x`. */
  ghost predicate Below(a: seq<PortRange>, x: int) {
    forall i | 0 <= i < |a| :: a[i].end + 1 < x
  }

  /** Every range of `b` starts at least two above `x`. */
  ghost predicate Above(b: seq<PortRange>, x: int) {
    forall i | 0 <= i < |b| :: x + 1 < b[i].start
  }

  // ---- Algebra of the denotation -------------------------------------------------------------

  lemma {:induction false} DenotesConcat(a: seq<PortRange>, b: seq<PortRange>)
    ensures Denotes(a + b) == Denotes(a) + Denotes(b)
  {
    if a == [] {
      assert a + b == b;
    } else {
      assert (a + b)[1..] == a[1..] + b;
      DenotesConcat(a[1..], b);
    }
  }

  /** A list taken apart around one of its ranges. */
  lemma DenotesAround(a: seq<PortRange>, r: PortRange, b: seq<PortRange>)
    ensures Denotes(a + [r] + b) == Denotes(a) + r.Ports() + Denotes(b)
  {
    DenotesConcat(a + [r], b);
    DenotesConcat(a, [r]);
  }

  lemma {:induction false} BelowDenotes(a: seq<PortRange>, x: int)
    requires Below(a, x)
    ensures forall p | p in Denotes(a) :: p + 1 < x
  {
    if a != [] {
      assert forall p | p in a[0].Ports() :: p <= a[0].end;
      BelowDenotes(a[1..], x);
    }
  }

  lemma {:induction false} AboveDenotes(b: seq<PortRange>, x: int)
    requires Above(b, x)
    ensures forall p | p in Denotes(b) :: x < p - 1
  {
    if b != [] {
      assert forall p | p in b[0].Ports() :: b[0].start <= p;
      AboveDenotes(b[1..], x);
    }
  }

  /** A normal list taken apart: `a`, then `r`, then `b`. */
  ghost predicate Parts(a: seq<PortRange>, r: PortRange, b: seq<PortRange>) {
    Normal(a) && Normal(b) && r.start <= r.end && Below(a, r.start) && Above(b, r.end)
  }

  lemma SplitAt(s: seq<PortRange>, i: int)
    requires Normal(s) && 0 <= i < |s|
    ensures s == s[..i] + [s[i]] + s[i + 1..]
    ensures Parts(s[..i], s[i], s[i + 1..])
  {
    var a, b := s[..i], s[i + 1..];
    assert Normal(a);
    forall k | 0 <= k < |b| ensures b[k] == s[i + 1 + k] {}
    assert Normal(b);
  }

  lemma PartsDenote(a: seq<PortRange>, r: PortRange, b: seq<PortRange>)
    requires Parts(a, r, b)
    ensures Denotes(a + [r] + b) == Denotes(a) + r.Ports() + Denotes(b)
    ensures forall p | p in Denotes(a) :: p + 1 < r.start
    ensures forall p | p in Denotes(b) :: r.end < p - 1
  {
    DenotesAround(a, r, b);
    BelowDenotes(a, r.start);
    AboveDenotes(b, r.end);
  }

  lemma NormalAround(a: seq<PortRange>, r: PortRange, b: seq<PortRange>)
    requires Parts(a, r, b)
    ensures Normal(a + [r] + b)
  {
    var s := a + [r] + b;
    forall i, j | 0 <= i < j < |s| ensures s[i].end + 1 < s[j].start {
      if i < |a| && |a| < j { assert s[i] == a[i] && s[j] == b[j - |a| - 1]; }
    }
  }

  // ---- The normal form is canonical ----------------------------------------------------------

  lemma FirstIsLeast(s: seq<PortRange>)
    requires Normal(s) && s != []
    ensures s[0].start in Denotes(s)
    ensures forall p | p in Denotes(s) :: s[0].start <= p
    ensures forall p | s[0].start <= p <= s[0].end + 1 :: p in Denotes(s) <==> p <= s[0].end
    ensures forall p :: p in Denotes(s[1..]) <==> p in Denotes(s) && s[0].end < p
  {
    SplitAt(s, 0);
    PartsDenote(s[..0], s[0], s[1..]);
  }

  /** Two normal lists that denote the same ports are the same list. */
  lemma {:induction false} NormalFormIsCanonical(a: seq<PortRange>, b: seq<PortRange>)
    requires Normal(a) && Normal(b) && Denotes(a) == Denotes(b)
    ensures a == b
  {
    if a == [] || b == [] {
      if a != [] { FirstIsLeast(a); }
      if b != [] { FirstIsLeast(b); }
    } else {
      FirstIsLeast(a);
      FirstIsLeast(b);
      assert a[0].start == b[0].start;
      assert a[0].end == b[0].end by {
        assert a[0].end + 1 !in Denotes(b) && b[0].end + 1 !in Denotes(a);
      }
      NormalFormIsCanonical(a[1..], b[1..]);
      assert a == [a[0]] + a[1..] && b == [b[0]] + b[1..];
    }
  }

  // ---- PortRange methods ---------------------------------------------------------------------

  /** `extend`: grow a range by an adjacent port. */
  method Extend(r: PortRange, port: int) returns (grown: bool, r': PortRange)
    ensures r.start <= r.end ==>
              (grown <==> port !in r.Ports() && exists m: PortRange :: m.Ports() == r.Ports() + {port})
    ensures r.start <= r.end && grown ==> r'.Ports() == r.Ports() + {port}
    ensures !grown ==> r' == r
  {
    if port == r.start - 1 {
      grown, r' := true, r.(start := port);
    } else if port == r.end + 1 {
      grown, r' := true, r.(end := port);
    } else {
      grown, r' := false, r;
      if r.start <= r.end && port !in r.Ports() {
        UnionHasGap(r, PortRange(port, port));
        assert PortRange(port, port).Ports() == {port};
      }
    }
    if r.start <= r.end && grown {
      assert r'.Ports() == r.Ports() + {port};
    }
  }

  /** Two non-empty ranges with a missing port between them do not form one range. */
  lemma UnionHasGap(a: PortRange, b: PortRange)
    requires a.start <= a.end && b.start <= b.end
    requires b.start > a.end + 1 || b.end + 1 < a.start
    ensures !exists m: PortRange :: m.Ports() == a.Ports() + b.Ports()
  {
    forall m: PortRange ensures m.Ports() != a.Ports() + b.Ports() {
      var gap := if b.start > a.end + 1 then a.end + 1 else b.end + 1;
      assert gap !in a.Ports() + b.Ports();
      assert a.start in a.Ports() && b.start in b.Ports();
    }
  }

  /** `merge`: succeeds exactly when the two ranges together are one range, which they become. */
  method Merge(a: PortRange, b: PortRange) returns (merged: bool, a': PortRange)
    ensures a.start <= a.end && b.start <= b.end ==>
              (merged <==> exists m: PortRange :: m.Ports() == a.Ports() + b.Ports())
    ensures a.start <= a.end && b.start <= b.end && merged ==> a'.Ports() == a.Ports() + b.Ports()
    ensures !merged ==> a' == a
  {
    if a.Contains(b.start) && a.Contains(b.end) {
      merged, a' := true, a;
    } else if b.Contains(a.start) && b.Contains(a.end) {
      merged, a' := true, PortRange(b.start, b.end);
    } else if b.start > a.end + 1 || b.end + 1 < a.start {
      merged, a' := false, a;
      if a.start <= a.end && b.start <= b.end { UnionHasGap(a, b); }
    } else if b.start == a.end + 1 {
      merged, a' := true, a.(end := b.end);
    } else if b.end + 1 == a.start {
      merged, a' := true, a.(start := b.start);
    } else if a.start <= b.start && a.end >= b.start {
      merged, a' := true, a.(end := b.end);
    } else if b.start <= a.start && b.end >= a.start {
      merged, a' := true, a.(start := b.start);
    } else {
      merged, a' := false, a;
    }
    if a.start <= a.end && b.start <= b.end && merged {
      assert a'.Ports() == a.Ports() + b.Ports();
    }
  }

  // ---- List helpers --------------------------------------------------------------------------

  /** `removePortRange`; the index must lie in the list unless the list has at most one range. */
  method RemovePortRange(ports: seq<PortRange>, i: int) returns (r: seq<PortRange>)
    requires |ports| <= 1 || 0 <= i < |ports|
    ensures 0 <= i < |ports| ==> r == ports[..i] + ports[i + 1..]
    ensures !(0 <= i < |ports|) ==> r == ports
  {
    if |ports| > 1 {
      if i == |ports| - 1 {
        r := ports[..i];
      } else if i == 0 {
        r := ports[1..];
      } else {
        r := ports[..i] + ports[i + 1..];
      }
    } else if i == 0 {
      r := [];
    } else {
      r := ports;
    }
  }

  /** `insertPortRange`: past the end it appends, and a negative index inserts nothing. */
  method InsertPortRange(ports: seq<PortRange>, extra: PortRange, i: int) returns (r: seq<PortRange>)
    ensures 0 <= i <= |ports| ==> r == ports[..i] + [extra] + ports[i..]
    ensures i > |ports| ==> r == ports + [extra]
    ensures i < 0 ==> r == ports
  {
    if i == 0 {
      r := [extra] + ports;
    } else if i + 1 > |ports| {
      r := ports + [extra];
    } else {
      r := [];
      for index := 0 to |ports|
        invariant r == if 0 <= i < index then ports[..i] + [extra] + ports[i..index] else ports[..index]
      {
        if index == i {
          r := r + [extra];
        }
        r := r + [ports[index]];
      }
      assert ports[..|ports|] == ports;
    }
  }

  // ---- The pool ------------------------------------------------------------------------------

  ghost predicate Least(m: int, s: set<int>) {
    m in s && forall p | p in s :: m <= p
  }

  lemma {:induction false} LeastExists(s: set<int>)
    requires s != {}
    ensures exists m :: Least(m, s)
  {
    var x := Pick(s);
    if s == {x} {
      assert Least(x, s);
    } else {
      LeastExists(s - {x});
      var m :| Least(m, s - {x});
      forall p | p in s ensures (if x < m then x else m) <= p {
        assert p == x || p in s - {x};
      }
      assert Least(if x < m then x else m, s);
    }
  }

  ghost function LeastOf(s: set<int>): (m: int)
    requires s != {}
    ensures Least(m, s)
  {
    LeastExists(s);
    var m :| Least(m, s);
    m
  }

  class FreePorts {
    var available: seq<PortRange>

    ghost predicate Valid()
      reads this
    {
      Normal(available)
    }

    ghost function Free(): set<int>
      reads this
    {
      Denotes(available)
    }

    constructor ()
      ensures Valid()
      ensures Free() == Span(MIN_PORT, MAX_PORT)
    {
      available := [PortRange(MIN_PORT, MAX_PORT)];
      new;
      assert Denotes(available[1..]) == {};
    }

    /** Replaces range `i` by `r`, which has `port` in addition, and closes the gap to the next range
        if that was the last port missing between them. */
    method Grow(i: nat, port: int, r: PortRange)
      requires Valid() && i < |available| && port !in available[i].Ports() && r.Ports() == available[i].Ports() + {port}
      requires Below(available[..i], port) && available[i].start - 1 <= port
      modifies this
      ensures Valid() && port !in old(Free()) && Free() == old(Free()) + {port}
    {
      GrowAt(available, i, port, r);
      available := available[i := r];
      if i + 1 < |available| {
        var merged, m := Merge(available[i], available[i + 1]);
        if merged {
          MergeAt(old(available), i, port, r, m);
          available := available[i := m];
          available := RemovePortRange(available, i + 1);
          return;
        }
        NoMerge(available[i], available[i + 1]);
      }
    }

    /** Adds exactly `port`, and reports whether it was missing. */
    method Release(port: int) returns (released: bool)
      requires Valid()
      modifies this
      ensures Valid()
      ensures Free() == old(Free()) + {port}
      ensures released <==> port !in old(Free())
    {
      var i := 0;
      while i < |available| && port >= available[i].start - 1
        invariant 0 <= i <= |available|
        invariant available == old(available)
        invariant Below(available[..i], port)
      {
        if available[i].Contains(port) {
          ContainsDenotes(available, i, port);
          return false;
        }
        var grown, r := Extend(available[i], port);
        if grown {
          Grow(i, port, r);
          return true;
        }
        NotAdjacent(available[i], port);
        assert available[..i + 1] == available[..i] + [available[i]];
        i := i + 1;
      }
      InsertSingle(available, i, port);
      available := InsertPortRange(available, PortRange(port, port), i);
      return true;
    }

    /** Removes exactly `port`, and reports whether it was there. */
    method Inuse(port: int) returns (taken: bool)
      requires Valid()
      modifies this
      ensures Valid()
      ensures Free() == old(Free()) - {port}
      ensures taken <==> port in old(Free())
    {
      var i := 0;
      while i < |available| && port >= available[i].start
        invariant 0 <= i <= |available|
        invariant available == old(available)
        invariant Below(available[..i], port + 1)
      {
        if available[i].Contains(port) {
          ContainsDenotes(available, i, port);
          if port == available[i].start {
            if available[i].Size() == 1 {
              TakeWhole(available, i, port);
              available := RemovePortRange(available, i);
            } else {
              TakeEdge(available, i, port, available[i].(start := port + 1));
              available := available[i := available[i].(start := port + 1)];
            }
          } else if port == available[i].end {
            TakeEdge(available, i, port, available[i].(end := port - 1));
            available := available[i := available[i].(end := port - 1)];
          } else {
            var extra := PortRange(port + 1, available[i].end);
            TakeMiddle(available, i, port);
            available := available[i := available[i].(end := port - 1)];
            available := InsertPortRange(available, extra, i + 1);
          }
          return true;
        }
        assert available[..i + 1] == available[..i] + [available[i]];
        i := i + 1;
      }
      NotThere(available, i, port);
      return false;
    }

    /** Hands out and removes the least free port; fails exactly when there is none. */
    method NextFreePort() returns (port: Option<int>)
      requires Valid()
      modifies this
      ensures Valid()
      ensures port == None <==> old(Free()) == {}
      ensures port.Some? ==> Least(port.value, old(Free()))
      ensures Free() == old(Free()) - (if port.Some? then {port.value} else {})
    {
      if |available| > 0 {
        FirstIsLeast(available);
        var next := available[0].start;
        var _ := Inuse(next);
        return Some(next);
      } else {
        return None;
      }
    }
  }

  // ---- Proof steps of Release and Inuse ------------------------------------------------------

  lemma NotAdjacent(r: PortRange, port: int)
    requires r.start <= r.end && r.start - 1 <= port && port !in r.Ports()
    requires !exists m: PortRange :: m.Ports() == r.Ports() + {port}
    ensures r.end + 1 < port
  {
    assert !(port == r.start - 1) by {
      assert port == r.start - 1 ==> PortRange(port, r.end).Ports() == r.Ports() + {port};
    }
    assert port == r.end + 1 ==> PortRange(r.start, port).Ports() == r.Ports() + {port};
  }

  lemma RangeFromEnds(m: PortRange, low: int, high: int)
    requires low <= high && m.Ports() == Span(low, high)
    ensures m == PortRange(low, high)
  {
    assert low in Span(low, high) && high in Span(low, high);
    assert m.start in m.Ports() && m.end in m.Ports();
  }

  lemma ContainsDenotes(s: seq<PortRange>, i: int, port: int)
    requires Normal(s) && 0 <= i < |s| && s[i].Contains(port)
    ensures port in Denotes(s)
  {
    SplitAt(s, i);
    DenotesAround(s[..i], s[i], s[i + 1..]);
  }

  /** A range grown by an adjacent port has the obvious ends. */
  lemma GrownEnds(was: PortRange, port: int, r: PortRange)
    requires was.start <= was.end && was.start - 1 <= port
    requires port !in was.Ports() && r.Ports() == was.Ports() + {port}
    ensures (r == PortRange(port, was.end) && port == was.start - 1)
              || (r == PortRange(was.start, port) && port == was.end + 1)
  {
    if port < was.start {
      assert was.Ports() + {port} == Span(port, was.end);
      RangeFromEnds(r, port, was.end);
    } else {
      assert was.end in was.Ports() && port in r.Ports();
      assert was.end + 1 in r.Ports();
      assert was.Ports() + {port} == Span(was.start, port);
      RangeFromEnds(r, was.start, port);
    }
  }

  /** Growing range `i` of a normal list; the result is normal unless it now touches its successor. */
  lemma GrowAt(s: seq<PortRange>, i: int, port: int, r: PortRange)
    requires Normal(s) && 0 <= i < |s|
    requires port !in s[i].Ports() && r.Ports() == s[i].Ports() + {port}
    requires Below(s[..i], port) && s[i].start - 1 <= port
    ensures r.start <= r.end && Below(s[..i], r.start) && (i + 1 < |s| ==> r.end < s[i + 1].start)
    ensures port !in Denotes(s)
    ensures Denotes(s[i := r]) == Denotes(s) + {port}
    ensures (i + 1 < |s| ==> r.end + 1 < s[i + 1].start) ==> Normal(s[i := r])
  {
    SplitAt(s, i);
    var a, b := s[..i], s[i + 1..];
    GrownEnds(s[i], port, r);
    assert s[i := r] == a + [r] + b;
    DenotesAround(a, r, b);
    PartsDenote(a, s[i], b);
    BelowDenotes(a, port);
    if i + 1 < |s| ==> r.end + 1 < s[i + 1].start {
      assert forall k | 0 <= k < |b| :: b[k] == s[i + 1 + k];
      NormalAround(a, r, b);
    }
  }

  lemma NoMerge(r: PortRange, next: PortRange)
    requires r.start <= r.end < next.start <= next.end
    requires !exists m: PortRange :: m.Ports() == r.Ports() + next.Ports()
    ensures r.end + 1 < next.start
  {
    assert r.end + 1 == next.start ==> PortRange(r.start, next.end).Ports() == r.Ports() + next.Ports();
  }

  /** Closing the gap between two neighbours. */
  lemma MergeRanges(a: seq<PortRange>, r: PortRange, next: PortRange, b: seq<PortRange>, m: PortRange)
    requires Normal(a) && Parts([], next, b) && r.start <= r.end < next.start && Below(a, r.start)
    requires m.Ports() == r.Ports() + next.Ports()
    ensures Normal(a + [m] + b)
    ensures Denotes(a + [m] + b) == Denotes(a + [r] + ([next] + b))
  {
    assert r.start in r.Ports() && next.end in next.Ports();
    assert m.start in m.Ports() && m.end in m.Ports();
    assert m == PortRange(r.start, next.end);
    NormalAround(a, m, b);
    DenotesAround(a, m, b);
    DenotesAround(a, r, [next] + b);
    DenotesConcat([next], b);
  }

  lemma MergeShape(s: seq<PortRange>, i: int, r: PortRange, m: PortRange)
    requires 0 <= i && i + 1 < |s|
    ensures var t := s[i := r][i := m]; t[..i + 1] + t[i + 2..] == s[..i] + [m] + s[i + 2..]
    ensures s[i := r] == s[..i] + [r] + ([s[i + 1]] + s[i + 2..])
  {
  }

  /** The same at position `i` of a list whose range `i` has just been grown to `r`. */
  lemma MergeAt(s: seq<PortRange>, i: int, port: int, r: PortRange, m: PortRange)
    requires Normal(s) && 0 <= i && i + 1 < |s|
    requires r.start <= r.end < s[i + 1].start && Below(s[..i], r.start)
    requires Denotes(s[i := r]) == Denotes(s) + {port}
    requires m.Ports() == r.Ports() + s[i + 1].Ports()
    ensures var t := s[i := r][i := m];
            Normal(t[..i + 1] + t[i + 2..]) && Denotes(t[..i + 1] + t[i + 2..]) == Denotes(s) + {port}
  {
    SplitAt(s, i + 1);
    assert Normal(s[..i]) by {
      SplitAt(s, i);
    }
    MergeRanges(s[..i], r, s[i + 1], s[i + 2..], m);
    MergeShape(s, i, r, m);
  }

  lemma InsertSingle(s: seq<PortRange>, i: int, port: int)
    requires Normal(s) && 0 <= i <= |s|
    requires Below(s[..i], port)
    requires i < |s| ==> port < s[i].start - 1
    ensures port !in Denotes(s)
    ensures Normal(s[..i] + [PortRange(port, port)] + s[i..])
    ensures Denotes(s[..i] + [PortRange(port, port)] + s[i..]) == Denotes(s) + {port}
  {
    var r := PortRange(port, port);
    assert Above(s[i..], port) by {
      forall k | 0 <= k < |s[i..]| ensures port + 1 < s[i..][k].start {
        assert s[i..][k] == s[i + k];
      }
    }
    NormalAround(s[..i], r, s[i..]);
    assert r.Ports() == {port};
    DenotesAround(s[..i], r, s[i..]);
    DenotesConcat(s[..i], s[i..]);
    assert s == s[..i] + s[i..];
    BelowDenotes(s[..i], port);
    AboveDenotes(s[i..], port);
  }

  lemma NotThere(s: seq<PortRange>, i: int, port: int)
    requires Normal(s) && 0 <= i <= |s|
    requires Below(s[..i], port + 1)
    requires i < |s| ==> port < s[i].start
    ensures port !in Denotes(s)
  {
    assert Above(s[i..], port - 1) by {
      forall k | 0 <= k < |s[i..]| ensures port < s[i..][k].start {
        assert s[i..][k] == s[i + k];
      }
    }
    DenotesConcat(s[..i], s[i..]);
    assert s == s[..i] + s[i..];
    BelowDenotes(s[..i], port + 1);
    AboveDenotes(s[i..], port - 1);
  }

  /** Taking `port` out of range `i`: what remains of it (`rest`) replaces it. */
  lemma TakeAt(s: seq<PortRange>, i: int, port: int, rest: seq<PortRange>)
    requires Normal(s) && 0 <= i < |s| && s[i].Contains(port)
    requires Denotes(rest) == s[i].Ports() - {port}
    ensures Denotes(s[..i] + rest + s[i + 1..]) == Denotes(s) - {port}
  {
    var a, b := s[..i], s[i + 1..];
    SplitAt(s, i);
    PartsDenote(a, s[i], b);
    DenotesConcat(a + rest, b);
    DenotesConcat(a, rest);
  }

  lemma TakeWhole(s: seq<PortRange>, i: int, port: int)
    requires Normal(s) && 0 <= i < |s| && s[i].start == port == s[i].end
    ensures Normal(s[..i] + s[i + 1..])
    ensures Denotes(s[..i] + s[i + 1..]) == Denotes(s) - {port}
  {
    TakeAt(s, i, port, []);
    assert s[..i] + [] == s[..i];
  }

  lemma TakeEdge(s: seq<PortRange>, i: int, port: int, rest: PortRange)
    requires Normal(s) && 0 <= i < |s| && s[i].start < s[i].end
    requires (port == s[i].start && rest == s[i].(start := port + 1))
               || (port == s[i].end && rest == s[i].(end := port - 1))
    ensures Normal(s[i := rest])
    ensures Denotes(s[i := rest]) == Denotes(s) - {port}
  {
    assert rest.Ports() == s[i].Ports() - {port};
    TakeAt(s, i, port, [rest]);
    assert s[i := rest] == s[..i] + [rest] + s[i + 1..];
  }

  lemma TakeMiddle(s: seq<PortRange>, i: int, port: int)
    requires Normal(s) && 0 <= i < |s| && s[i].start < port < s[i].end
    ensures var t := s[i := s[i].(end := port - 1)];
            var u := t[..i + 1] + [PortRange(port + 1, s[i].end)] + t[i + 1..];
            Normal(u) && Denotes(u) == Denotes(s) - {port}
  {
    var low, high := s[i].(end := port - 1), PortRange(port + 1, s[i].end);
    var t := s[i := low];
    assert low.Ports() + high.Ports() == s[i].Ports() - {port};
    DenotesConcat([low], [high]);
    TakeAt(s, i, port, [low] + [high]);
    assert t[..i + 1] + [high] + t[i + 1..] == s[..i] + ([low] + [high]) + s[i + 1..];
    SplitAt(s, i);
    assert t[..i + 1] == s[..i] + [low] && t[i + 1..] == s[i + 1..];
    assert Normal(t[..i + 1]);
    NormalAround(t[..i + 1], high, t[i + 1..]);
  }

  // ---- Consequences --------------------------------------------------------------------------

  /** Taking a free port and giving it back restores the very same list of ranges. */
  method InuseThenRelease(pool: FreePorts, port: int)
    requires pool.Valid() && port in pool.Free()
    modifies pool
    ensures pool.Valid() && pool.available == old(pool.available)
  {
    ghost var before := pool.available;
    var _ := pool.Inuse(port);
    var _ := pool.Release(port);
    NormalFormIsCanonical(pool.available, before);
  }

  // ---- Every run refines a set of integers ---------------------------------------------------

  datatype Operation = OpRelease(port: int) | OpInuse(port: int) | OpNext

  datatype Outcome = Answer(yes: bool) | Port(port: Option<int>)

  /** What each call must answer on a plain set, and the set it must leave. */
  ghost predicate SetStep(free: set<int>, op: Operation, out: Outcome, free': set<int>) {
    match op
    case OpRelease(p) => out == Answer(p !in free) && free' == free + {p}
    case OpInuse(p) => out == Answer(p in free) && free' == free - {p}
    case OpNext =>
      if free == {} then out == Port(None) && free' == free
      else out.Port? && out.port.Some? && Least(out.port.value, free) && free' == free - {out.port.value}
  }

  /** A run of calls on a plain set of integers: `states` are the sets between the calls. */
  ghost predicate SetRun(ops: seq<Operation>, outs: seq<Outcome>, states: seq<set<int>>) {
    && |outs| == |ops| && |states| == |ops| + 1
    && states[0] == Span(MIN_PORT, MAX_PORT)
    && forall i | 0 <= i < |ops| :: SetStep(states[i], ops[i], outs[i], states[i + 1])
  }

  /** Whatever is called on a new pool, in whatever order, the answers are those of a plain set of
      ports and the list is the normal form of that set. */
  method RunRefinesSet(ops: seq<Operation>) returns (outs: seq<Outcome>, pool: FreePorts, ghost states: seq<set<int>>)
    ensures SetRun(ops, outs, states)
    ensures fresh(pool) && pool.Valid() && pool.Free() == states[|ops|]
    ensures forall list: seq<PortRange> | Normal(list) && Denotes(list) == states[|ops|] :: pool.available == list
  {
    pool := new FreePorts();
    outs, states := [], [pool.Free()];
    for n := 0 to |ops|
      invariant fresh(pool) && pool.Valid()
      invariant |states| == n + 1 && pool.Free() == states[n]
      invariant SetRun(ops[..n], outs, states)
    {
      var out: Outcome;
      match ops[n] {
        case OpRelease(p) =>
          var yes := pool.Release(p);
          out := Answer(yes);
        case OpInuse(p) =>
          var yes := pool.Inuse(p);
          out := Answer(yes);
        case OpNext =>
          var port := pool.NextFreePort();
          out := Port(port);
      }
      assert SetStep(states[n], ops[n], out, pool.Free());
      outs, states := outs + [out], states + [pool.Free()];
    }
    assert ops[..|ops|] == ops;
    forall list: seq<PortRange> | Normal(list) && Denotes(list) == states[|ops|]
      ensures pool.available == list
    {
      NormalFormIsCanonical(pool.available, list);
    }
  }
}
