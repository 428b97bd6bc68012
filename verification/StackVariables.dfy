/** The variables of a function being compiled and the stack slots they get (src/compiler/stack_variables.c). */
module StackVariables {
  import opened Options

  datatype Info = Info(name: string, isTemporary: bool, sizeOfType: nat)

  function Names(vs: seq<Info>): (r: seq<string>)
    ensures |r| == |vs| && forall i :: 0 <= i < |vs| ==> r[i] == vs[i].name
  {
    if vs == [] then [] else Names(vs[..|vs| - 1]) + [vs[|vs| - 1].name]
  }

  ghost predicate Distinct(names: seq<string>) {
    forall i, j :: 0 <= i < j < |names| ==> names[i] != names[j]
  }

  // ---- Renaming temporaries ----

  function Longest(names: seq<string>): (n: nat)
    ensures forall i :: 0 <= i < |names| ==> |names[i]| <= n
  {
    if names == [] then 0
    else
      var n := Longest(names[..|names| - 1]);
      if |names[|names| - 1]| > n then |names[|names| - 1]| else n
  }

  function Underscores(k: nat): (s: string)
    ensures |s| == k
  {
    if k == 0 then "" else Underscores(k - 1) + "_"
  }

  /** The name a temporary ends up with: underscores are appended for as long as the name is taken. */
  function FreshName(names: seq<string>, name: string): (r: string)
    ensures r !in names
    decreases Longest(names) + 1 - |name|
  {
    if name in names then FreshName(names, name + "_") else name
  }

  lemma FreshStep(names: seq<string>, name: string)
    ensures name in names ==> FreshName(names, name) == FreshName(names, name + "_") && |name| <= Longest(names)
    ensures name !in names ==> FreshName(names, name) == name
  {
  }

  /** All shorter ones, from `k` underscores on, are taken. */
  ghost predicate Taken(names: seq<string>, name: string, k: nat, n: nat) {
    forall m: nat :: k <= m < n ==> name + Underscores(m) in names
  }

  lemma {:induction false} CountUnderscores(names: seq<string>, name: string, k: nat) returns (n: nat)
    ensures n >= k && FreshName(names, name + Underscores(k)) == name + Underscores(n) && Taken(names, name, k, n)
    decreases Longest(names) + 1 - (|name| + k)
  {
    var cur := name + Underscores(k);
    if cur in names {
      assert cur + "_" == name + Underscores(k + 1);
      n := CountUnderscores(names, name, k + 1);
      forall m: nat | k <= m < n ensures name + Underscores(m) in names {
        assert m >= k + 1 || m == k;
      }
    } else {
      n := k;
    }
  }

  /** It is the wanted name with the fewest underscores that make it new. */
  lemma {:induction false} FreshNameIsShortest(names: seq<string>, name: string)
    ensures exists n: nat :: FreshName(names, name) == name + Underscores(n) && Taken(names, name, 0, n)
  {
    var n := CountUnderscores(names, name, 0);
    assert name + Underscores(0) == name;
  }

  /** Index of the first variable with this name. */
  function Find(names: seq<string>, name: string): (r: Option<nat>)
    ensures r.Some? ==> r.value < |names| && names[r.value] == name && forall k :: 0 <= k < r.value ==> names[k] != name
    ensures r.None? ==> name !in names
  {
    if names == [] then None
    else
      var t := Find(names[..|names| - 1], name);
      if t.Some? then t
      else if names[|names| - 1] == name then Some(|names| - 1)
      else None
  }

  class VariablesArray {
    /** The entries in use; `capacity` says how many fit the allocated buffer. */
    var variables: seq<Info>
    var capacity: nat

    ghost predicate Valid()
      reads this
    {
      |variables| <= capacity && Distinct(Names(variables))
    }

    constructor ()
      ensures Valid() && variables == [] && capacity == 0
    {
      variables, capacity := [], 0;
    }

    method IsInArray(name: string) returns (found: bool)
      ensures found <==> name in Names(variables)
    {
      found := false;
      for i := 0 to |variables|
        invariant !found && name !in Names(variables)[..i]
      {
        if variables[i].name == name {
          assert Names(variables)[i] == name;
          return true;
        }
      }
    }

    method EnsureCapacityAddOne()
      requires |variables| <= capacity
      modifies this`capacity
      ensures |variables| < capacity && old(capacity) <= capacity
    {
      if |variables| < capacity {
        return;
      }
      capacity := if capacity == 0 then 2 else capacity * 2;
    }

    /** A declared variable: refused, with nothing changed, if its name is taken. */
    method Push(v: Info) returns (added: bool)
      requires Valid() && !v.isTemporary
      modifies this
      ensures Valid() && added == (v.name !in Names(old(variables)))
      ensures variables == if added then old(variables) + [v] else old(variables)
    {
      var taken := IsInArray(v.name);
      if taken {
        return false;
      }
      EnsureCapacityAddOne();
      NamesAppend(variables, v);
      variables := variables + [v];
      added := true;
    }

    /** A temporary: renamed until its name is new. */
    method PushTemporary(v: Info)
      requires Valid() && v.isTemporary
      modifies this
      ensures Valid()
      ensures variables == old(variables) + [v.(name := FreshName(Names(old(variables)), v.name))]
    {
      hide FreshName, Longest, Names;
      var name := v.name;
      var taken := IsInArray(name);
      FreshStep(Names(variables), name);
      while taken
        invariant variables == old(variables) && capacity == old(capacity)
        invariant taken <==> name in Names(variables)
        invariant FreshName(Names(variables), name) == FreshName(Names(variables), v.name)
        invariant taken ==> |name| <= Longest(Names(variables))
        decreases taken, Longest(Names(variables)) + 1 - |name|
      {
        FreshStep(Names(variables), name);
        name := name + "_";
        taken := IsInArray(name);
        FreshStep(Names(variables), name);
      }
      FreshStep(Names(variables), name);
      EnsureCapacityAddOne();
      NamesAppend(variables, v.(name := name));
      variables := variables + [v.(name := name)];
    }

    method FindIndex(name: string) returns (r: Option<nat>)
      ensures r == Find(Names(variables), name)
    {
      for i := 0 to |variables|
        invariant name !in Names(variables)[..i]
      {
        if variables[i].name == name {
          FindFirst(Names(variables), name, i);
          return Some(i);
        }
      }
      assert Names(variables)[..|variables|] == Names(variables);
      return None;
    }
  }

  lemma {:induction false} NamesAppend(vs: seq<Info>, v: Info)
    ensures Names(vs + [v]) == Names(vs) + [v.name]
  {
    assert (vs + [v])[..|vs|] == vs;
  }

  lemma {:induction false} FindFirst(names: seq<string>, name: string, i: nat)
    requires i < |names| && names[i] == name && name !in names[..i]
    ensures Find(names, name) == Some(i)
  {
    forall k | 0 <= k < i ensures names[k] != name {
      assert names[..i][k] == names[k];
    }
  }

  /** Later variables do not change what a name stands for. */
  lemma {:induction false} FindAppend(names: seq<string>, more: seq<string>, name: string)
    requires name in names
    ensures Find(names + more, name) == Find(names, name)
  {
    var i := Find(names, name).value;
    FindFirst(names + more, name, i);
  }

  // ---- Slots ----

  const UINT16_MAX: nat := 65535

  /** Slots a variable of a size gets in its function's frame. */
  function CalleeSlots(size: nat): nat {
    if size > 8 then size / 8 else 1
  }

  /** Slots by which a caller moves on after pushing an argument of a size
      (src/program/function_call_args.c:52-54). */
  function CallerSlots(size: nat): nat {
    (size + 7) / 8
  }

  function CalleePosition(sizes: seq<nat>, i: nat): nat
    requires i <= |sizes|
  {
    if i == 0 then 0 else CalleePosition(sizes, i - 1) + CalleeSlots(sizes[i - 1])
  }

  function CallerOffset(sizes: seq<nat>, i: nat): nat
    requires i <= |sizes|
  {
    if i == 0 then 0 else CallerOffset(sizes, i - 1) + CallerSlots(sizes[i - 1])
  }

  /** What a variable moves on the next one: in its function a slot for each whole 8 bytes and at least one, for
      a caller the slots its bytes need. */
  lemma {:induction false} SlotsApart(sizes: seq<nat>, i: nat)
    requires i < |sizes|
    ensures CalleePosition(sizes, 0) == 0 && CallerOffset(sizes, 0) == 0
    ensures CalleePosition(sizes, i + 1) == CalleePosition(sizes, i) + (if sizes[i] < 16 then 1 else sizes[i] / 8)
    ensures CallerOffset(sizes, i + 1)
         == CallerOffset(sizes, i) + sizes[i] / 8 + (if sizes[i] % 8 == 0 then 0 else 1)
  {
  }

  lemma {:induction false} PositionsGrow(sizes: seq<nat>, i: nat, j: nat)
    requires i < j <= |sizes|
    ensures CalleePosition(sizes, i) + CalleeSlots(sizes[i]) <= CalleePosition(sizes, j)
    decreases j
  {
    if i < j - 1 {
      PositionsGrow(sizes, i, j - 1);
    }
  }

  predicate Covers(sizes: seq<nat>, i: nat, slot: nat)
    requires i < |sizes|
  {
    CalleePosition(sizes, i) <= slot < CalleePosition(sizes, i) + CalleeSlots(sizes[i])
  }

  /** The variables' slots are disjoint and fill the frame exactly: every slot of it belongs to one variable. */
  lemma {:induction false} SlotsPartitionFrame(sizes: seq<nat>, slot: nat)
    requires slot < CalleePosition(sizes, |sizes|)
    ensures exists i :: 0 <= i < |sizes| && Covers(sizes, i, slot)
    ensures forall i, j ::
      0 <= i < |sizes| && 0 <= j < |sizes| && Covers(sizes, i, slot) && Covers(sizes, j, slot) ==> i == j
  {
    FindSlot(sizes, slot, |sizes|);
    forall i, j | 0 <= i < j < |sizes|
      ensures CalleePosition(sizes, i) + CalleeSlots(sizes[i]) <= CalleePosition(sizes, j)
    {
      PositionsGrow(sizes, i, j);
    }
  }

  lemma {:induction false} FindSlot(sizes: seq<nat>, slot: nat, n: nat)
    requires n <= |sizes| && slot < CalleePosition(sizes, n)
    ensures exists i :: 0 <= i < n && Covers(sizes, i, slot)
  {
    if slot < CalleePosition(sizes, n - 1) {
      FindSlot(sizes, slot, n - 1);
    } else {
      assert Covers(sizes, n - 1, slot);
    }
  }

  lemma SameSlots(size: nat)
    ensures CalleeSlots(size) == CallerSlots(size) <==> size > 0 && (size <= 8 || size % 8 == 0)
  {
  }

  ghost predicate PositionsAgree(sizes: seq<nat>) {
    forall i :: 0 <= i < |sizes| ==> CallerOffset(sizes, i) == CalleePosition(sizes, i)
  }

  /** A caller puts every argument where the function looks for it if and only if all arguments but the
      last have from 1 to 8 bytes or a positive multiple of 8. */
  lemma {:induction false} ConventionAgrees(sizes: seq<nat>)
    ensures PositionsAgree(sizes)
       <==> forall i :: 0 <= i < |sizes| - 1 ==> sizes[i] > 0 && (sizes[i] <= 8 || sizes[i] % 8 == 0)
  {
    if PositionsAgree(sizes) {
      forall i | 0 <= i < |sizes| - 1 ensures sizes[i] > 0 && (sizes[i] <= 8 || sizes[i] % 8 == 0) {
        SameSlots(sizes[i]);
        assert CallerOffset(sizes, i) == CalleePosition(sizes, i);
        assert CallerOffset(sizes, i + 1) == CalleePosition(sizes, i + 1);
      }
    } else {
      var i :| 0 <= i < |sizes| && CallerOffset(sizes, i) != CalleePosition(sizes, i);
      if forall k :: 0 <= k < i ==> sizes[k] > 0 && (sizes[k] <= 8 || sizes[k] % 8 == 0) {
        AgreeUpTo(sizes, i);
      }
    }
  }

  lemma {:induction false} AgreeUpTo(sizes: seq<nat>, i: nat)
    requires i <= |sizes| && forall k :: 0 <= k < i ==> sizes[k] > 0 && (sizes[k] <= 8 || sizes[k] % 8 == 0)
    ensures CallerOffset(sizes, i) == CalleePosition(sizes, i)
  {
    if i > 0 {
      AgreeUpTo(sizes, i - 1);
      SameSlots(sizes[i - 1]);
    }
  }

  /** `StackVariablesAssignment`. `sizes` is the record of what was pushed. */
  class Assignment {
    var names: seq<string>
    var positions: seq<nat>
    var requiredFrameSize: nat
    var capacity: nat
    ghost var sizes: seq<nat>

    ghost predicate Valid()
      reads this
    {
      && |names| == |positions| == |sizes| <= capacity && Distinct(names)
      && requiredFrameSize == CalleePosition(sizes, |sizes|) <= UINT16_MAX
      && forall i :: 0 <= i < |positions| ==> positions[i] == CalleePosition(sizes, i)
    }

    constructor ()
      ensures Valid() && names == [] && sizes == []
    {
      names, positions, requiredFrameSize, capacity := [], [], 0, 0;
      sizes := [];
    }

    /** Refused, with nothing changed, for a name already there and for a full frame. The code asserts that
        a frame that was not full before does not grow past 65535 slots. */
    method Push(name: string, sizeOfType: nat) returns (success: bool)
      requires Valid()
      requires name !in names && requiredFrameSize < UINT16_MAX
        ==> requiredFrameSize + CalleeSlots(sizeOfType) <= UINT16_MAX
      modifies this
      ensures Valid() && success == (name !in old(names) && old(requiredFrameSize) < UINT16_MAX)
      ensures names == old(names) + (if success then [name] else [])
      ensures sizes == old(sizes) + (if success then [sizeOfType] else [])
    {
      for i := 0 to |names|
        invariant name !in names[..i]
      {
        if names[i] == name {
          return false;
        }
      }
      assert names[..|names|] == names;
      if requiredFrameSize >= UINT16_MAX {
        return false;
      }
      var position := requiredFrameSize;
      var slotsForVariable := 1;
      if sizeOfType > 8 {
        for i := 1 to sizeOfType / 8
          invariant slotsForVariable == i
        {
          slotsForVariable := slotsForVariable + 1;
        }
      }
      PositionsAppend(sizes, sizeOfType);
      requiredFrameSize := requiredFrameSize + slotsForVariable;
      if |names| == capacity {
        capacity := if capacity == 0 then 2 else capacity * 2;
      }
      names := names + [name];
      positions := positions + [position];
      sizes := sizes + [sizeOfType];
      success := true;
    }
  }

  lemma {:induction false} PositionsAppend(sizes: seq<nat>, size: nat)
    ensures forall i :: 0 <= i <= |sizes| ==> CalleePosition(sizes + [size], i) == CalleePosition(sizes, i)
    ensures CalleePosition(sizes + [size], |sizes| + 1) == CalleePosition(sizes, |sizes|) + CalleeSlots(size)
  {
    forall i | 0 <= i <= |sizes| ensures CalleePosition(sizes + [size], i) == CalleePosition(sizes, i) {
      SamePrefix(sizes, sizes + [size], i);
    }
  }

  lemma {:induction false} SamePrefix(a: seq<nat>, b: seq<nat>, i: nat)
    requires i <= |a| && i <= |b| && a[..i] == b[..i]
    ensures CalleePosition(a, i) == CalleePosition(b, i)
  {
    if i > 0 {
      assert a[..i - 1] == a[..i][..i - 1] && b[..i - 1] == b[..i][..i - 1];
      assert a[i - 1] == a[..i][i - 1] && b[i - 1] == b[..i][i - 1];
      SamePrefix(a, b, i - 1);
    }
  }

  /** The first `i` variables taken, there is room for the next. */
  lemma {:induction false} RoomForNext(taken: seq<nat>, sizes: seq<nat>, i: nat)
    requires i < |sizes| && taken == sizes[..i]
    ensures CalleePosition(taken, i) < CalleePosition(taken, i) + CalleeSlots(sizes[i])
      <= CalleePosition(sizes, |sizes|)
  {
    SamePrefix(taken, sizes, i);
    PositionsGrow(sizes, i, |sizes|);
  }

  /** `cubs_stack_assignment_init`: distinct names and few enough slots are assigned in order. */
  method AssignAll(variables: seq<Info>) returns (a: Assignment)
    requires Distinct(Names(variables))
    requires CalleePosition(Sizes(variables), |variables|) <= UINT16_MAX
    ensures fresh(a) && a.Valid() && a.names == Names(variables) && a.sizes == Sizes(variables)
  {
    hide CalleePosition, Names, Sizes, CalleeSlots;
    a := new Assignment();
    for i := 0 to |variables|
      invariant fresh(a) && a.Valid() && a.names == Names(variables)[..i] && a.sizes == Sizes(variables)[..i]
    {
      RoomForNext(a.sizes, Sizes(variables), i);
      var success := a.Push(variables[i].name, variables[i].sizeOfType);
      assert success;
    }
  }

  function Sizes(vs: seq<Info>): (r: seq<nat>)
    ensures |r| == |vs| && forall i :: 0 <= i < |vs| ==> r[i] == vs[i].sizeOfType
  {
    if vs == [] then [] else Sizes(vs[..|vs| - 1]) + [vs[|vs| - 1].sizeOfType]
  }

  /** One slot each: a variable's position is its index. */
  lemma {:induction false} PositionIsIndex(sizes: seq<nat>, i: nat)
    requires i <= |sizes| && forall k :: 0 <= k < |sizes| ==> sizes[k] <= 8
    ensures CalleePosition(sizes, i) == i
  {
    if i > 0 {
      PositionIsIndex(sizes, i - 1);
    }
  }
}
