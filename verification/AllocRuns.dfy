/** Whole runs of the allocator: what stays true of the blocks handed out, and by how much
    the free count drifts. */
module AllocRuns {
  import opened Bitmap

  /** A request and its answer; owned runs are named by their position. */
  datatype Event =
    | Take(len: nat, got: nat)
    | TakeFrom(start: nat, len: nat, got: nat)
    | Give(k: nat)

  datatype Run = Run(start: nat, len: nat)

  function Blocks(o: Run): set<nat> { Range(o.start, o.len) }

  /** What the caller holds after an event. */
  function Holding(owned: seq<Run>, e: Event): seq<Run> {
    match e
    case Take(len, got) => if got == NO_BLOCK then owned else owned + [Run(got, len)]
    case TakeFrom(_, len, got) => if got == NO_BLOCK then owned else owned + [Run(got, len)]
    case Give(k) => if k < |owned| then owned[..k] + owned[k + 1..] else owned
  }

  /** One call, on the state the allocator's methods go from and to; callers only give back
      what they hold. */
  ghost predicate Step(a: Alloc, owned: seq<Run>, e: Event, b: Alloc) {
    match e
    case Take(len, got) => 0 < len < U32 && Took(a, len, got, b)
    case TakeFrom(start, len, got) => 0 < start && 0 < len < U32 && TookAt(a, start, len, got, b)
    case Give(k) => k < |owned| && Gave(a, owned[k].start, owned[k].len, b)
  }

  ghost predicate IsRun(a: Alloc, owned: seq<Run>, es: seq<Event>, states: seq<Alloc>)
    decreases |es|
  {
    |states| == |es| &&
    (es == [] || (Step(a, owned, es[0], states[0]) && IsRun(states[0], Holding(owned, es[0]), es[1..], states[1..])))
  }

  function HoldingAfter(owned: seq<Run>, es: seq<Event>): seq<Run>
    decreases |es|
  {
    if es == [] then owned else HoldingAfter(Holding(owned, es[0]), es[1..])
  }

  function Last(a: Alloc, states: seq<Alloc>): Alloc { if states == [] then a else states[|states| - 1] }

  /** Runs held are allocated, pairwise disjoint, and never include block 0. */
  ghost predicate Sound(a: Alloc, owned: seq<Run>) {
    && |a.bits| < U32
    && (forall i | 0 <= i < |owned| ::
          && 0 < owned[i].start && 0 < owned[i].len && owned[i].start + owned[i].len <= |a.bits|
          && Blocks(owned[i]) <= SetBits(a.bits))
    && forall i, j | 0 <= i < j < |owned| :: Blocks(owned[i]) !! Blocks(owned[j])
  }

  lemma FreshRun(a: Alloc, start: nat, len: nat)
    requires ClearRun(a.bits, start, len)
    ensures Range(start, len) !! SetBits(a.bits) && start + len <= |a.bits|
  {
  }

  lemma SoundStep(a: Alloc, owned: seq<Run>, e: Event, b: Alloc)
    requires Sound(a, owned) && Step(a, owned, e, b)
    ensures Sound(b, Holding(owned, e))
  {
    hide SetBits, Range, ClearRun;
    var next := Holding(owned, e);
    match e
    case Take(len, got) => if got != NO_BLOCK { FreshRun(a, got, len); }
    case TakeFrom(_, len, got) => if got != NO_BLOCK { FreshRun(a, got, len); }
    case Give(k) =>
      assert forall i | 0 <= i < |next| :: next[i] == if i < k then owned[i] else owned[i + 1];
  }

  /** ... and so they stay over every run. */
  lemma {:induction false} SoundRun(a: Alloc, owned: seq<Run>, es: seq<Event>, states: seq<Alloc>)
    requires Sound(a, owned) && IsRun(a, owned, es, states)
    ensures Sound(Last(a, states), HoldingAfter(owned, es))
    decreases |es|
  {
    if es != [] {
      SoundStep(a, owned, es[0], states[0]);
      SoundRun(states[0], Holding(owned, es[0]), es[1..], states[1..]);
      assert Last(a, states) == Last(states[0], states[1..]);
    }
  }

  // ------------------------------------------------------- the free count

  /** Free count plus allocated blocks: constant if the count were exact. */
  ghost function Total(a: Alloc): int { a.nrFree + |SetBits(a.bits)| }

  /** What an event adds to the total: get_offset never lowers the count, and a failing
      get_free_blocks lowers it all the same. */
  function Drift(e: Event): int {
    match e
    case Take(len, got) => if got == NO_BLOCK then 0 - (len as int) else 0
    case TakeFrom(_, len, got) => if got == NO_BLOCK then 0 else len as int
    case Give(_) => 0
  }

  function DriftAll(es: seq<Event>): int {
    if es == [] then 0 else Drift(es[0]) + DriftAll(es[1..])
  }

  lemma SizeAdd(s: set<nat>, start: nat, len: nat)
    requires Range(start, len) !! s
    ensures |s + Range(start, len)| == |s| + len
  {
    hide Range;
    RangeSize(start, len);
  }

  lemma SizeSub(s: set<nat>, start: nat, len: nat)
    requires Range(start, len) <= s
    ensures |s - Range(start, len)| == |s| - len
  {
    hide Range;
    RangeSize(start, len);
  }

  lemma DriftStep(a: Alloc, owned: seq<Run>, e: Event, b: Alloc)
    requires Sound(a, owned) && Step(a, owned, e, b)
    ensures (Total(b) - Total(a) - Drift(e)) % U32 == 0
  {
    hide SetBits, Range, ClearRun;
    match e
    case Take(len, got) =>
      if got != NO_BLOCK { FreshRun(a, got, len); SizeAdd(SetBits(a.bits), got, len); }
      ModShift(a.nrFree, 0 - (len as int));
    case TakeFrom(_, len, got) =>
      if got != NO_BLOCK { FreshRun(a, got, len); SizeAdd(SetBits(a.bits), got, len); }
    case Give(k) =>
      SizeSub(SetBits(a.bits), owned[k].start, owned[k].len);
      ModShift(a.nrFree, owned[k].len);
  }

  lemma ModShift(n: int, d: int)
    ensures ((n + d) % U32 - n - d) % U32 == 0
  {
  }

  /** Over every run the free count is off by exactly what get_offset took and failing
      requests asked for, up to the wrap-around of the counter. */
  lemma {:induction false} DriftRun(a: Alloc, owned: seq<Run>, es: seq<Event>, states: seq<Alloc>)
    requires Sound(a, owned) && IsRun(a, owned, es, states)
    ensures (Total(Last(a, states)) - Total(a) - DriftAll(es)) % U32 == 0
    decreases |es|
  {
    hide Sound, Total;
    if es != [] {
      SoundStep(a, owned, es[0], states[0]);
      DriftStep(a, owned, es[0], states[0]);
      DriftRun(states[0], Holding(owned, es[0]), es[1..], states[1..]);
      assert Last(a, states) == Last(states[0], states[1..]);
      ModSum(Total(states[0]) - Total(a) - Drift(es[0]), Total(Last(a, states)) - Total(states[0]) - DriftAll(es[1..]));
    }
  }

  lemma ModSum(x: int, y: int)
    requires x % U32 == 0 && y % U32 == 0
    ensures (x + y) % U32 == 0
  {
  }

  /** Without get_offset and without failures the count is exact. */
  lemma CountExact(a: Alloc, owned: seq<Run>, es: seq<Event>, states: seq<Alloc>)
    requires Sound(a, owned) && IsRun(a, owned, es, states)
    requires forall e | e in es :: Drift(e) == 0
    ensures (Total(Last(a, states)) - Total(a)) % U32 == 0
  {
    hide Sound, IsRun, Total, Drift;
    DriftRun(a, owned, es, states);
    NoDrift(es);
  }

  lemma {:induction false} NoDrift(es: seq<Event>)
    requires forall e | e in es :: Drift(e) == 0
    ensures DriftAll(es) == 0
  {
    if es != [] {
      NoDrift(es[1..]);
    }
  }

  // ---------------------------------------------------- the high-water mark

  /** Every allocated block lies below s_unused_area, as the defragmenter needs it. */
  ghost predicate Marked(a: Alloc) { forall b | b in SetBits(a.bits) :: b < a.unused }

  /** The run handed out does not reach across the mark; a request that is not met asks for more
      than lies below the last allocated block, since it sets the mark to its length less one. */
  ghost predicate KeepsMark(a: Alloc, e: Event) {
    match e
    case Take(len, got) =>
      if got == NO_BLOCK then forall b | b in SetBits(a.bits) :: b + 1 < len
      else a.unused <= got || got + len <= a.unused
    case TakeFrom(_, len, got) => got == NO_BLOCK || a.unused <= got || got + len <= a.unused
    case Give(_) => true
  }

  lemma MarkStep(a: Alloc, owned: seq<Run>, e: Event, b: Alloc)
    requires Sound(a, owned) && Step(a, owned, e, b) && Marked(a)
    ensures Marked(b) <==> KeepsMark(a, e)
  {
    hide ClearRun, Range;
    match e
    case Take(len, got) => if got != NO_BLOCK { FreshRun(a, got, len); MarkTaken(a, len, got, b); }
    case TakeFrom(_, len, got) => if got != NO_BLOCK { FreshRun(a, got, len); MarkTaken(a, len, got, b); }
    case Give(k) =>
  }

  lemma MarkTaken(a: Alloc, len: nat, got: nat, b: Alloc)
    requires Marked(a) && 0 < len && got + len <= |a.bits| < U32 && SetBits(b.bits) == SetBits(a.bits) + Range(got, len)
    requires b.unused == if got >= a.unused then (got + len) % U32 else a.unused
    ensures Marked(b) <==> a.unused <= got || got + len <= a.unused
  {
    assert Within(got + len - 1, got, len);
    assert got + len - 1 in Range(got, len);
  }

  ghost predicate AllKeepMark(a: Alloc, es: seq<Event>, states: seq<Alloc>)
    requires |states| == |es|
    decreases |es|
  {
    es == [] || (KeepsMark(a, es[0]) && AllKeepMark(states[0], es[1..], states[1..]))
  }

  /** Over every run the mark stays above all allocated blocks if and only if that holds of each
      of its events. */
  lemma {:induction false} MarkRun(a: Alloc, owned: seq<Run>, es: seq<Event>, states: seq<Alloc>)
    requires Sound(a, owned) && IsRun(a, owned, es, states) && Marked(a)
    ensures |states| == |es|
    ensures (forall i | 0 <= i < |states| :: Marked(states[i])) <==> AllKeepMark(a, es, states)
    decreases |es|
  {
    hide Sound, Marked, KeepsMark, Step;
    if es != [] {
      SoundStep(a, owned, es[0], states[0]);
      MarkStep(a, owned, es[0], states[0]);
      var rest := states[1..];
      assert forall i | 0 < i < |states| :: states[i] == rest[i - 1];
      if Marked(states[0]) {
        MarkRun(states[0], Holding(owned, es[0]), es[1..], rest);
        if forall i | 0 <= i < |states| :: Marked(states[i]) {
          assert forall i | 0 <= i < |rest| :: rest[i] == states[i + 1];
        }
      }
    }
  }

  /** It does not always: with block 2 released below the mark 3, a run of two reaches past it. */
  lemma MarkPassed()
    ensures var a, b := Alloc([true, true, false, false], 2, 3), Alloc([true, true, true, true], 0, 3);
            Marked(a) && Step(a, [], Take(2, 2), b) && !Marked(b)
  {
    var a, b := Alloc([true, true, false, false], 2, 3), Alloc([true, true, true, true], 0, 3);
    assert forall i :: Within(i, 2, 2) <==> i == 2 || i == 3;
    assert SetBits(a.bits) == {0, 1} && Range(2, 2) == {2, 3};
    assert 3 in SetBits(b.bits);
  }
}
