/** Grouping freshly queued steps into worker jobs: one queue, kind and model per
    job, chunks of bounded size, each step in exactly one job. */
module Jobs {
  import opened Transition
  import opened Graph
  import opened Protocol

  /** A step row with its id, as the queries return it. */
  datatype Item = Item(id: StepId, row: Row)

  datatype GroupKey = GroupKey(queue: string, kind: string, providerRef: string)

  datatype Job = Job(stepIds: seq<StepId>, queue: string, kind: string, priority: int)

  /** Nanoseconds of work one batch job should take. */
  const BATCH_CHUNK_TARGET: int := 600_000_000_000

  const PRIORITY_TRAIN_BENCH: int := 4

  // ---- Chunks --------------------------------------------------------------

  /** The most steps of `perStep` nanoseconds that fit in one target, at least one. */
  function ChunkSize(perStep: int): (n: int)
    ensures n >= 1
    ensures perStep > 0 && n > 1 ==> n * perStep <= BATCH_CHUNK_TARGET
    ensures perStep > 0 ==> BATCH_CHUNK_TARGET < (n + 1) * perStep
  {
    if perStep <= 0 then 1
    else
      var n := BATCH_CHUNK_TARGET / perStep;
      if n < 1 then 1 else n
  }

  ghost function Flatten(chunks: seq<seq<StepId>>): seq<StepId> {
    if chunks == [] then [] else Flatten(chunks[..|chunks| - 1]) + chunks[|chunks| - 1]
  }

  /** Cuts `ids` into consecutive chunks, all full but the last. */
  method ChunkIds(ids: seq<StepId>, size: int) returns (chunks: seq<seq<StepId>>)
    requires size >= 1
    ensures Flatten(chunks) == ids
    ensures forall i :: 0 <= i < |chunks| ==> 1 <= |chunks[i]| <= size
    ensures forall i :: 0 <= i < |chunks| - 1 ==> |chunks[i]| == size
  {
    chunks := [];
    var start := 0;
    while start < |ids|
      invariant 0 <= start <= |ids|
      invariant Flatten(chunks) == ids[..start]
      invariant forall i :: 0 <= i < |chunks| ==> 1 <= |chunks[i]| <= size
      invariant start < |ids| ==> forall i :: 0 <= i < |chunks| ==> |chunks[i]| == size
      invariant forall i :: 0 <= i < |chunks| - 1 ==> |chunks[i]| == size
    {
      var end := if start + size > |ids| then |ids| else start + size;
      ghost var before := chunks;
      chunks := chunks + [ids[start..end]];
      assert chunks[..|chunks| - 1] == before;
      assert ids[..start] + ids[start..end] == ids[..end];
      start := end;
    }
    assert ids[..|ids|] == ids;
  }

  // ---- Groups --------------------------------------------------------------

  function KeyOf(s: Item): GroupKey {
    GroupKey(s.row.place.queue, s.row.kind, s.row.place.providerRef)
  }

  /** The queued steps of one key, in input order. */
  function GroupOf(steps: seq<Item>, key: GroupKey): (group: seq<Item>) {
    if steps == [] then []
    else
      var last := steps[|steps| - 1];
      var rest := GroupOf(steps[..|steps| - 1], key);
      if last.row.status.Queued? && KeyOf(last) == key then rest + [last] else rest
  }

  predicate InGroup(s: Item, key: GroupKey) {
    s.row.status.Queued? && KeyOf(s) == key
  }

  lemma {:induction false} GroupHolds(steps: seq<Item>, key: GroupKey)
    ensures forall s :: s in GroupOf(steps, key) <==> s in steps && InGroup(s, key)
  {
    if steps != [] {
      GroupHolds(steps[..|steps| - 1], key);
      assert steps == steps[..|steps| - 1] + [steps[|steps| - 1]];
    }
  }

  function StepIds(steps: seq<Item>): (ids: seq<StepId>)
    ensures |ids| == |steps|
    ensures forall i :: 0 <= i < |ids| ==> ids[i] == steps[i].id
  {
    seq(|steps|, i requires 0 <= i < |steps| => steps[i].id)
  }

  ghost predicate DistinctItems(steps: seq<Item>) {
    forall i, j :: 0 <= i < j < |steps| ==> steps[i].id != steps[j].id
  }

  lemma {:induction false} GroupIsDistinct(steps: seq<Item>, key: GroupKey)
    requires DistinctItems(steps)
    ensures DistinctItems(GroupOf(steps, key))
  {
    if steps != [] {
      var init, last := steps[..|steps| - 1], steps[|steps| - 1];
      GroupIsDistinct(init, key);
      GroupHolds(init, key);
      var rest := GroupOf(init, key);
      forall i | 0 <= i < |rest| ensures rest[i].id != last.id {
        assert rest[i] in init;
      }
    }
  }

  method GroupSteps(steps: seq<Item>) returns (groups: map<GroupKey, seq<Item>>)
    ensures forall key :: key in groups <==> GroupOf(steps, key) != []
    ensures forall key :: key in groups ==> groups[key] == GroupOf(steps, key)
  {
    groups := map[];
    for i := 0 to |steps|
      invariant forall key :: key in groups <==> GroupOf(steps[..i], key) != []
      invariant forall key :: key in groups ==> groups[key] == GroupOf(steps[..i], key)
    {
      var s := steps[i];
      assert steps[..i + 1][..i] == steps[..i];
      if s.row.status.Queued? {
        var key := KeyOf(s);
        groups := groups[key := (if key in groups then groups[key] else []) + [s]];
      }
    }
    assert steps[..|steps|] == steps;
  }

  // ---- Key order -----------------------------------------------------------

  predicate StringLess(a: string, b: string) {
    b != [] && (a == [] || a[0] < b[0] || (a[0] == b[0] && StringLess(a[1..], b[1..])))
  }

  lemma {:induction false} StringTrichotomy(a: string, b: string)
    ensures a != b ==> StringLess(a, b) || StringLess(b, a)
  {
    if a != [] && b != [] && a[0] == b[0] {
      StringTrichotomy(a[1..], b[1..]);
      assert a == [a[0]] + a[1..] && b == [b[0]] + b[1..];
    }
  }

  predicate KeyLess(a: GroupKey, b: GroupKey) {
    if a.queue != b.queue then StringLess(a.queue, b.queue)
    else if a.kind != b.kind then StringLess(a.kind, b.kind)
    else StringLess(a.providerRef, b.providerRef)
  }

  lemma KeyTrichotomy(a: GroupKey, b: GroupKey)
    ensures a != b ==> KeyLess(a, b) || KeyLess(b, a)
  {
    StringTrichotomy(a.queue, b.queue);
    StringTrichotomy(a.kind, b.kind);
    StringTrichotomy(a.providerRef, b.providerRef);
  }

  ghost predicate SortedKeys(keys: seq<GroupKey>) {
    forall i :: 0 <= i < |keys| - 1 ==> KeyLess(keys[i], keys[i + 1])
  }

  ghost predicate DistinctKeys(keys: seq<GroupKey>) {
    forall i, j :: 0 <= i < j < |keys| ==> keys[i] != keys[j]
  }

  method SortKeys(keys: set<GroupKey>) returns (sorted: seq<GroupKey>)
    ensures forall key :: key in sorted <==> key in keys
    ensures DistinctKeys(sorted) && SortedKeys(sorted)
  {
    sorted := [];
    var rest := keys;
    while rest != {}
      invariant rest <= keys
      invariant forall key :: key in sorted <==> key in keys && key !in rest
      invariant DistinctKeys(sorted) && SortedKeys(sorted)
    {
      var key :| key in rest;
      rest := rest - {key};
      sorted := InsertKey(sorted, key);
    }
  }

  lemma InsertSorts(a: seq<GroupKey>, key: GroupKey, b: seq<GroupKey>)
    requires SortedKeys(a + b) && DistinctKeys(a + b) && key !in a + b
    requires a != [] ==> KeyLess(a[|a| - 1], key)
    requires b != [] ==> KeyLess(key, b[0])
    ensures SortedKeys(a + [key] + b) && DistinctKeys(a + [key] + b)
  {
    var keys, sorted := a + b, a + [key] + b;
    forall i | 0 <= i < |sorted| - 1 ensures KeyLess(sorted[i], sorted[i + 1]) {
      if i + 1 < |a| { assert sorted[i] == keys[i] && sorted[i + 1] == keys[i + 1]; }
      else if i > |a| { assert sorted[i] == keys[i - 1] && sorted[i + 1] == keys[i - 1 + 1]; }
    }
    forall i, j | 0 <= i < j < |sorted| ensures sorted[i] != sorted[j] {
      assert i != |a| ==> sorted[i] == keys[if i < |a| then i else i - 1];
      assert j != |a| ==> sorted[j] == keys[if j < |a| then j else j - 1];
    }
  }

  method InsertKey(keys: seq<GroupKey>, key: GroupKey) returns (sorted: seq<GroupKey>)
    requires key !in keys && DistinctKeys(keys) && SortedKeys(keys)
    ensures forall k :: k in sorted <==> k in keys || k == key
    ensures DistinctKeys(sorted) && SortedKeys(sorted)
  {
    var p := 0;
    while p < |keys| && KeyLess(keys[p], key)
      invariant 0 <= p <= |keys|
      invariant p > 0 ==> KeyLess(keys[p - 1], key)
    {
      p := p + 1;
    }
    if p < |keys| { KeyTrichotomy(keys[p], key); }
    assert keys[..p] + keys[p..] == keys;
    InsertSorts(keys[..p], key, keys[p..]);
    sorted := keys[..p] + [key] + keys[p..];
  }

  // ---- Jobs ----------------------------------------------------------------

  /** The most urgent priority among the group's steps in `chunk`, at most 4. */
  method MinPriority(group: seq<Item>, chunk: seq<StepId>) returns (best: int)
    ensures best <= PRIORITY_TRAIN_BENCH
    ensures forall s :: s in group && s.id in chunk ==> best <= s.row.priority
    ensures best < PRIORITY_TRAIN_BENCH ==> exists s :: s in group && s.id in chunk && s.row.priority == best
  {
    best := PRIORITY_TRAIN_BENCH;
    for i := 0 to |group|
      invariant best <= PRIORITY_TRAIN_BENCH
      invariant forall j :: 0 <= j < i && group[j].id in chunk ==> best <= group[j].row.priority
      invariant best < PRIORITY_TRAIN_BENCH ==>
                  exists s :: s in group && s.id in chunk && s.row.priority == best
    {
      if group[i].id in chunk && group[i].row.priority < best {
        best := group[i].row.priority;
        assert group[i] in group;
      }
    }
  }

  ghost function JobIds(jobs: seq<Job>): seq<StepId> {
    if jobs == [] then [] else JobIds(jobs[..|jobs| - 1]) + jobs[|jobs| - 1].stepIds
  }

  /** `job` holds steps of the one group `key`, no more than fit in a chunk, and
      is as urgent as the most urgent of its own steps, but at most 4. */
  ghost predicate GoodJob(job: Job, key: GroupKey, steps: seq<Item>, estimate: string -> int) {
    && job.queue == key.queue && job.kind == key.kind
    && 1 <= |job.stepIds| <= ChunkSize(estimate(key.kind))
    && (forall id :: id in job.stepIds ==> exists s :: s in steps && s.id == id && InGroup(s, key))
    && job.priority <= PRIORITY_TRAIN_BENCH
    && (forall s :: s in steps && s.id in job.stepIds ==> job.priority <= s.row.priority)
    && (job.priority < PRIORITY_TRAIN_BENCH ==>
          exists s :: s in steps && s.id in job.stepIds && s.row.priority == job.priority)
  }

  ghost predicate OfOneGroup(job: Job, steps: seq<Item>, estimate: string -> int) {
    exists key :: GoodJob(job, key, steps, estimate)
  }

  ghost predicate GoodJobs(jobs: seq<Job>, steps: seq<Item>, estimate: string -> int) {
    forall job :: job in jobs ==> OfOneGroup(job, steps, estimate)
  }

  lemma SameIdSameItem(steps: seq<Item>, s: Item, t: Item)
    requires DistinctItems(steps) && s in steps && t in steps && s.id == t.id
    ensures s == t
  {
    var i :| 0 <= i < |steps| && steps[i] == s;
    var j :| 0 <= j < |steps| && steps[j] == t;
  }

  method JobFor(steps: seq<Item>, group: seq<Item>, key: GroupKey, chunk: seq<StepId>, estimate: string -> int)
    returns (job: Job)
    requires DistinctItems(steps) && group == GroupOf(steps, key)
    requires 1 <= |chunk| <= ChunkSize(estimate(key.kind))
    requires forall id :: id in chunk ==> exists s :: s in group && s.id == id
    ensures GoodJob(job, key, steps, estimate) && job.stepIds == chunk
  {
    GroupHolds(steps, key);
    var priority := MinPriority(group, chunk);
    job := Job(chunk, key.queue, key.kind, priority);
    forall s | s in steps && s.id in chunk ensures s in group {
      var t :| t in group && t.id == s.id;
      SameIdSameItem(steps, s, t);
    }
  }

  lemma {:induction false} FlattenMember(chunks: seq<seq<StepId>>, i: nat, id: StepId)
    requires i < |chunks| && id in chunks[i]
    ensures id in Flatten(chunks)
  {
    if i < |chunks| - 1 { FlattenMember(chunks[..|chunks| - 1], i, id); }
  }

  method GroupJobs(steps: seq<Item>, group: seq<Item>, key: GroupKey, estimate: string -> int) returns (jobs: seq<Job>)
    requires DistinctItems(steps) && group == GroupOf(steps, key)
    ensures GoodJobs(jobs, steps, estimate)
    ensures JobIds(jobs) == StepIds(group)
  {
    jobs := [];
    var chunks := ChunkIds(StepIds(group), ChunkSize(estimate(key.kind)));
    for c := 0 to |chunks|
      invariant GoodJobs(jobs, steps, estimate)
      invariant JobIds(jobs) == Flatten(chunks[..c])
    {
      forall id | id in chunks[c] ensures exists s :: s in group && s.id == id {
        FlattenMember(chunks, c, id);
        var k :| 0 <= k < |group| && StepIds(group)[k] == id;
        assert group[k] in group && group[k].id == id;
      }
      var job := JobFor(steps, group, key, chunks[c], estimate);
      JobIdsAppend(jobs, [job]);
      assert JobIds([job]) == chunks[c] by { assert [job][..0] == []; }
      jobs := jobs + [job];
      assert chunks[..c + 1][..c] == chunks[..c];
    }
    assert chunks[..|chunks|] == chunks;
  }

  /** The ids of the groups of `keys`, one group after the other. */
  ghost function IdsOfKeys(steps: seq<Item>, keys: seq<GroupKey>): seq<StepId> {
    if keys == [] then []
    else IdsOfKeys(steps, keys[..|keys| - 1]) + StepIds(GroupOf(steps, keys[|keys| - 1]))
  }

  lemma {:induction false} JobIdsAppend(a: seq<Job>, b: seq<Job>)
    ensures JobIds(a + b) == JobIds(a) + JobIds(b)
    decreases |b|
  {
    if b == [] {
      assert a + b == a;
    } else {
      JobIdsAppend(a, b[..|b| - 1]);
      assert (a + b)[..|a + b| - 1] == a + b[..|b| - 1];
    }
  }

  lemma {:induction false} IdsOfKeysHolds(steps: seq<Item>, keys: seq<GroupKey>, id: StepId)
    ensures id in IdsOfKeys(steps, keys) <==>
            exists s :: s in steps && s.id == id && s.row.status.Queued? && KeyOf(s) in keys
  {
    if keys != [] {
      var init, last := keys[..|keys| - 1], keys[|keys| - 1];
      assert keys == init + [last];
      IdsOfKeysHolds(steps, init, id);
      GroupHolds(steps, last);
      var group := GroupOf(steps, last);
      if id in StepIds(group) {
        var k :| 0 <= k < |group| && StepIds(group)[k] == id;
        assert group[k] in group;
      }
      if s :| s in steps && s.id == id && InGroup(s, last) {
        var k :| 0 <= k < |group| && group[k] == s;
        assert StepIds(group)[k] == id;
      }
    }
  }

  lemma {:induction false} IdsOfKeysDistinct(steps: seq<Item>, keys: seq<GroupKey>)
    requires DistinctItems(steps) && DistinctKeys(keys)
    ensures NoRepeats(IdsOfKeys(steps, keys))
  {
    if keys != [] {
      var init, last := keys[..|keys| - 1], keys[|keys| - 1];
      IdsOfKeysDistinct(steps, init);
      GroupIsDistinct(steps, last);
      GroupHolds(steps, last);
      var group := GroupOf(steps, last);
      forall k | 0 <= k < |group| ensures StepIds(group)[k] !in IdsOfKeys(steps, init) {
        IdsOfKeysHolds(steps, init, group[k].id);
        assert group[k] in group;
        forall s | s in steps && s.id == group[k].id ensures KeyOf(s) !in init {
          SameIdSameItem(steps, s, group[k]);
        }
      }
    }
  }

  /** `id` is the id of a queued step of the input. */
  ghost predicate IsQueued(steps: seq<Item>, id: StepId) {
    exists s :: s in steps && s.id == id && s.row.status.Queued?
  }

  lemma AllKeysAllIds(steps: seq<Item>, keys: seq<GroupKey>)
    requires forall key :: key in keys <==> GroupOf(steps, key) != []
    ensures forall id :: id in IdsOfKeys(steps, keys) <==> IsQueued(steps, id)
  {
    forall s | s in steps && s.row.status.Queued? ensures KeyOf(s) in keys {
      GroupHolds(steps, KeyOf(s));
    }
    forall id ensures id in IdsOfKeys(steps, keys) <==> IsQueued(steps, id) {
      IdsOfKeysHolds(steps, keys, id);
    }
  }

  method JobsOfKeys(steps: seq<Item>, groups: map<GroupKey, seq<Item>>, keys: seq<GroupKey>, estimate: string -> int)
    returns (jobs: seq<Job>)
    requires DistinctItems(steps)
    requires forall key :: key in keys ==> key in groups && groups[key] == GroupOf(steps, key)
    ensures GoodJobs(jobs, steps, estimate)
    ensures JobIds(jobs) == IdsOfKeys(steps, keys)
  {
    jobs := [];
    for k := 0 to |keys|
      invariant GoodJobs(jobs, steps, estimate)
      invariant JobIds(jobs) == IdsOfKeys(steps, keys[..k])
    {
      var more := GroupJobs(steps, groups[keys[k]], keys[k], estimate);
      JobIdsAppend(jobs, more);
      jobs := jobs + more;
      assert keys[..k + 1][..k] == keys[..k];
    }
    assert keys[..|keys|] == keys;
  }

  /** Every queued step of the input is in exactly one job and no other step is
      in any; every job is good. */
  method EnqueueReadySteps(steps: seq<Item>, estimate: string -> int) returns (jobs: seq<Job>)
    requires DistinctItems(steps)
    ensures GoodJobs(jobs, steps, estimate)
    ensures NoRepeats(JobIds(jobs))
    ensures forall id :: id in JobIds(jobs) <==> IsQueued(steps, id)
  {
    var groups := GroupSteps(steps);
    var keys := SortKeys(groups.Keys);
    AllKeysAllIds(steps, keys);
    IdsOfKeysDistinct(steps, keys);
    jobs := JobsOfKeys(steps, groups, keys, estimate);
  }
}
