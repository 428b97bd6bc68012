/** One level of a thread's lock requests (src/sync/sync_queue.c): what `add_sync_object` builds,
    as a function on sequences, and the properties the locking relies on. */
module QueueSpec {
  import opened Locks

  /** The scan of `add_sync_object`: stop at the first entry whose address is not smaller. */
  function Insert(q: seq<Request>, r: Request): seq<Request> {
    if q == [] then [r]
    else if q[0].addr == r.addr then q
    else if q[0].addr < r.addr then [q[0]] + Insert(q[1..], r)
    else [r] + q
  }

  /** All of `rs` added to an empty level, in the order given. */
  function Plan(rs: seq<Request>): seq<Request> {
    if rs == [] then [] else Insert(Plan(rs[..|rs| - 1]), rs[|rs| - 1])
  }

  ghost predicate Ascending(q: seq<Request>) {
    forall i, j :: 0 <= i < j < |q| ==> q[i].addr < q[j].addr
  }

  /** The level as a finite map from address to mode; an earlier entry wins. */
  ghost function AsMap(q: seq<Request>): map<Address, Mode> {
    if q == [] then map[] else AsMap(q[1..])[q[0].addr := q[0].mode]
  }

  /** What a thread holds that has locked these levels. */
  function Flatten(levels: seq<seq<Request>>): Holds {
    if levels == [] then multiset{} else Flatten(levels[..|levels| - 1]) + multiset(levels[|levels| - 1])
  }

  lemma {:induction false} AsMapMember(q: seq<Request>, a: Address)
    ensures a in AsMap(q) <==> exists i :: 0 <= i < |q| && q[i].addr == a
    ensures a in AsMap(q) ==> Request(a, AsMap(q)[a]) in q
  {
    if q != [] {
      AsMapMember(q[1..], a);
      if a in AsMap(q) && a != q[0].addr {
        var i :| 0 <= i < |q[1..]| && q[1..][i].addr == a;
        assert q[i + 1].addr == a;
      }
    }
  }

  lemma {:induction false} InsertAscending(q: seq<Request>, r: Request)
    requires Ascending(q)
    ensures Ascending(Insert(q, r))
    ensures forall x :: x in Insert(q, r) ==> x in q || x == r
  {
    if q != [] && q[0].addr < r.addr {
      InsertAscending(q[1..], r);
      forall x | x in Insert(q[1..], r) ensures q[0].addr < x.addr {
      }
    }
  }

  /** Adding refines a map: an absent address is added, a present one keeps the mode first asked for. */
  lemma {:induction false} InsertRefinesMap(q: seq<Request>, r: Request)
    requires Ascending(q)
    ensures AsMap(Insert(q, r)) == if r.addr in AsMap(q) then AsMap(q) else AsMap(q)[r.addr := r.mode]
    ensures |Insert(q, r)| == if r.addr in AsMap(q) then |q| else |q| + 1
  {
    AsMapMember(q, r.addr);
    if q != [] && q[0].addr < r.addr {
      InsertRefinesMap(q[1..], r);
      AsMapMember(q[1..], r.addr);
      assert Insert(q, r)[1..] == Insert(q[1..], r);
    } else if q != [] && q[0].addr > r.addr {
      assert ([r] + q)[1..] == q;
    }
  }

  /** An ascending level is determined by its map, so the order of the calls leaves no other trace. */
  lemma {:induction false} AscendingDetermined(p: seq<Request>, q: seq<Request>)
    requires Ascending(p) && Ascending(q) && AsMap(p) == AsMap(q)
    ensures p == q
  {
    if p != [] { assert p[0].addr in AsMap(p); }
    if q != [] { assert q[0].addr in AsMap(q); }
    if p != [] && q != [] {
      var a, b := p[0].addr, q[0].addr;
      assert a in AsMap(q) && b in AsMap(p);
      AsMapMember(p, b);
      AsMapMember(q, a);
      assert a == b;
      AsMapMember(p[1..], a);
      AsMapMember(q[1..], a);
      assert AsMap(p[1..]) == AsMap(p) - {a} && AsMap(q[1..]) == AsMap(q) - {a};
      AscendingDetermined(p[1..], q[1..]);
      assert p[0] == q[0];
      assert p == [p[0]] + p[1..] && q == [q[0]] + q[1..];
    }
  }

  lemma {:induction false} PlanAscending(rs: seq<Request>)
    ensures Ascending(Plan(rs))
    ensures forall x :: x in Plan(rs) ==> x in rs
  {
    if rs != [] {
      PlanAscending(rs[..|rs| - 1]);
      InsertAscending(Plan(rs[..|rs| - 1]), rs[|rs| - 1]);
    }
  }

  /** Adding a request puts it into the level unless its address is there, and takes nothing out. */
  lemma {:induction false} InsertMembers(q: seq<Request>, r: Request, x: Request)
    requires Ascending(q)
    ensures x in Insert(q, r) <==> x in q || (x == r && forall y :: y in q ==> y.addr != r.addr)
  {
    if q != [] && q[0].addr < r.addr {
      InsertMembers(q[1..], r, x);
    }
  }

  /** `r` is asked for, and no other request for its address comes before. */
  ghost predicate FirstAsked(rs: seq<Request>, r: Request) {
    exists i :: 0 <= i < |rs| && rs[i] == r && forall j :: 0 <= j < i ==> rs[j].addr != r.addr
  }

  lemma FirstAskedMore(rs: seq<Request>, last: Request, r: Request)
    ensures FirstAsked(rs + [last], r) <==>
      FirstAsked(rs, r) || (r == last && forall x :: x in rs ==> x.addr != r.addr)
  {
    var more := rs + [last];
    assert forall i :: 0 <= i < |rs| ==> more[i] == rs[i];
    if FirstAsked(rs, r) {
      var i :| 0 <= i < |rs| && rs[i] == r && forall j :: 0 <= j < i ==> rs[j].addr != r.addr;
      assert more[i] == r;
    }
    if r == last && forall x :: x in rs ==> x.addr != r.addr {
      assert more[|rs|] == r;
    }
  }

  /** Of the requests for an address, one comes first. */
  lemma {:induction false} SomeoneFirst(rs: seq<Request>, a: Address) returns (r: Request)
    requires exists x :: x in rs && x.addr == a
    ensures r.addr == a && FirstAsked(rs, r)
  {
    var n := |rs| - 1;
    assert rs == rs[..n] + [rs[n]];
    if exists x :: x in rs[..n] && x.addr == a {
      r := SomeoneFirst(rs[..n], a);
    } else {
      r := rs[n];
    }
    FirstAskedMore(rs[..n], rs[n], r);
  }

  /** The level holds the requests that were asked for, each address once and in the mode it was first asked
      for. */
  ghost predicate IsLevelOf(level: seq<Request>, rs: seq<Request>) {
    Ascending(level) && forall r :: r in level <==> FirstAsked(rs, r)
  }

  /** A level holds exactly the requests that were asked for first at their addresses, each once and in the
      order of their addresses. */
  lemma {:induction false} PlanExactly(rs: seq<Request>)
    ensures Ascending(Plan(rs)) && forall r :: r in Plan(rs) <==> FirstAsked(rs, r)
  {
    if rs != [] {
      var front, last := rs[..|rs| - 1], rs[|rs| - 1];
      assert rs == front + [last];
      PlanExactly(front);
      InsertAscending(Plan(front), last);
      AddedExactly(front, Plan(front), last);
    }
  }

  /** One more request for a level that holds exactly what was asked for. */
  lemma {:induction false} AddedExactly(rs: seq<Request>, q: seq<Request>, last: Request)
    requires Ascending(q) && forall r :: r in q <==> FirstAsked(rs, r)
    ensures forall r :: r in Insert(q, last) <==> FirstAsked(rs + [last], r)
  {
    hide FirstAsked, Ascending;
    if exists x :: x in rs && x.addr == last.addr {
      var x := SomeoneFirst(rs, last.addr);
    }
    forall r ensures r in Insert(q, last) <==> FirstAsked(rs + [last], r) {
      InsertMembers(q, last, r);
      FirstAskedMore(rs, last, r);
      forall x | x in q ensures x in rs {
        IsAsked(rs, x);
      }
    }
  }

  lemma IsAsked(rs: seq<Request>, r: Request)
    requires FirstAsked(rs, r)
    ensures r in rs
  {
  }

  /** What `Insert` is when the scan has passed `i` smaller entries. */
  lemma {:induction false} InsertAt(q: seq<Request>, r: Request, i: nat)
    requires i <= |q|
    requires forall j :: 0 <= j < i ==> q[j].addr < r.addr
    ensures i == |q| ==> Insert(q, r) == q + [r]
    ensures i < |q| && q[i].addr == r.addr ==> Insert(q, r) == q
    ensures i < |q| && q[i].addr > r.addr ==> Insert(q, r) == q[..i] + [r] + q[i..]
  {
    if i > 0 {
      InsertAt(q[1..], r, i - 1);
      assert q == [q[0]] + q[1..];
      assert q[..i] == [q[0]] + q[1..][..i - 1] && q[i..] == q[1..][i - 1..];
    }
  }
}
