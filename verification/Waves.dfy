/**
 Splitting a batch into waves (backend/services/workstation_mapping.py): plain chunks, or devices
 drawn round-robin from workstation groups.
 */
module Waves {
  import opened Prelude

  type DeviceId = nat

  function Flat(waves: seq<seq<DeviceId>>): seq<DeviceId> {
    if waves == [] then [] else Flat(waves[..|waves| - 1]) + waves[|waves| - 1]
  }

  lemma FlatAppend(waves: seq<seq<DeviceId>>, wave: seq<DeviceId>)
    ensures Flat(waves + [wave]) == Flat(waves) + wave
  {
    assert (waves + [wave])[..|waves|] == waves;
  }

  /** The distinct ids of a request. */
  function Asked(devices: seq<DeviceId>): set<DeviceId> {
    set d | d in devices
  }

  /**
   `plan` is an order in which a launcher may go through the requested devices: as requested, or
   each distinct id once.
   */
  ghost predicate Plan(devices: seq<DeviceId>, plan: seq<DeviceId>) {
    plan == devices || multiset(plan) == multiset(Asked(devices))
  }

  /** A launcher never asks for more tasks than devices were requested. */
  lemma PlanFits(devices: seq<DeviceId>, plan: seq<DeviceId>)
    requires Plan(devices, plan)
    ensures |plan| <= |devices|
  {
    if multiset(plan) == multiset(Asked(devices)) {
      assert |multiset(plan)| == |multiset(Asked(devices))|;
      AskedOnce(devices);
    }
  }

  lemma {:induction false} AskedOnce(devices: seq<DeviceId>)
    ensures |Asked(devices)| <= |devices|
  {
    if devices == [] {
    } else {
      var front, last := devices[..|devices| - 1], devices[|devices| - 1];
      assert devices == front + [last];
      AskedOnce(front);
      assert Asked(devices) == Asked(front) + {last};
    }
  }

  /** Full waves, and a last one that is not empty and not longer. */
  ghost predicate WellSized(waves: seq<seq<DeviceId>>, waveSize: nat) {
    && (forall i | 0 <= i < |waves| - 1 :: |waves[i]| == waveSize)
    && (waves != [] ==> 0 < |waves[|waves| - 1]| <= waveSize)
  }

  // ── plain chunks ──

  method Chunks(devices: seq<DeviceId>, waveSize: nat) returns (waves: seq<seq<DeviceId>>)
    requires waveSize > 0
    ensures Flat(waves) == devices && WellSized(waves, waveSize)
  {
    waves := [];
    var i := 0;
    while i < |devices|
      invariant 0 <= i
      invariant Flat(waves) == if i <= |devices| then devices[..i] else devices
      invariant i < |devices| ==> forall k | 0 <= k < |waves| :: |waves[k]| == waveSize
      invariant WellSized(waves, waveSize)
      decreases |devices| - i
    {
      var end := if i + waveSize <= |devices| then i + waveSize else |devices|;
      FlatAppend(waves, devices[i..end]);
      assert devices[..i] + devices[i..end] == devices[..end];
      waves := waves + [devices[i..end]];
      i := i + waveSize;
      assert devices[..|devices|] == devices;
    }
    assert devices[..|devices|] == devices;
  }

  // ── round robin ──

  /** Where a device comes from: element `round` of group `group`. */
  datatype Tag = Tag(round: nat, group: nat)

  predicate Earlier(a: Tag, b: Tag) {
    a.round < b.round || (a.round == b.round && a.group < b.group)
  }

  predicate InGroups(groups: seq<seq<DeviceId>>, t: Tag) {
    t.group < |groups| && t.round < |groups[t.group]|
  }

  /**
   `tags` lists, in the order of (round, group) and without gaps, every element before `next`;
   `flat` are the elements themselves.
   */
  ghost predicate Drawn(groups: seq<seq<DeviceId>>, tags: seq<Tag>, flat: seq<DeviceId>, next: Tag) {
    && |tags| == |flat|
    && (forall i | 0 <= i < |tags| ::
          InGroups(groups, tags[i]) && Earlier(tags[i], next) && flat[i] == groups[tags[i].group][tags[i].round])
    && (forall i, j | 0 <= i < j < |tags| :: Earlier(tags[i], tags[j]))
    && (forall t: Tag | InGroups(groups, t) && Earlier(t, next) :: t in tags)
  }

  /** The round-robin order over all groups. */
  ghost predicate RoundRobin(groups: seq<seq<DeviceId>>, tags: seq<Tag>, flat: seq<DeviceId>) {
    && |tags| == |flat|
    && (forall i | 0 <= i < |tags| :: InGroups(groups, tags[i]) && flat[i] == groups[tags[i].group][tags[i].round])
    && (forall i, j | 0 <= i < j < |tags| :: Earlier(tags[i], tags[j]))
    && (forall t: Tag | InGroups(groups, t) :: t in tags)
  }

  lemma DrawOne(groups: seq<seq<DeviceId>>, tags: seq<Tag>, flat: seq<DeviceId>, next: Tag)
    requires Drawn(groups, tags, flat, next) && InGroups(groups, next)
    ensures Drawn(groups, tags + [next], flat + [groups[next.group][next.round]], Tag(next.round, next.group + 1))
  {
    var tags' := tags + [next];
    assert tags'[|tags|] == next;
    forall t: Tag | InGroups(groups, t) && Earlier(t, Tag(next.round, next.group + 1)) ensures t in tags' {
      if t != next {
        assert t in tags;
      }
    }
  }

  /** A group with nothing left in this round is passed over. */
  lemma SkipOne(groups: seq<seq<DeviceId>>, tags: seq<Tag>, flat: seq<DeviceId>, next: Tag)
    requires Drawn(groups, tags, flat, next) && !InGroups(groups, next) && next.group < |groups|
    ensures Drawn(groups, tags, flat, Tag(next.round, next.group + 1))
  {
  }

  /**
   The draining loops: `while any(queues): for queue in queues: if queue: ...`. Deques are
   sequences here; `popleft` drops the first element.
   */
  method Drain(groups: seq<seq<DeviceId>>, waveSize: nat) returns (waves: seq<seq<DeviceId>>, ghost tags: seq<Tag>)
    requires waveSize > 0
    ensures WellSized(waves, waveSize)
    ensures RoundRobin(groups, tags, Flat(waves))
  {
    hide *;
    waves, tags := [], [];
    var queues := groups;
    var current: seq<DeviceId> := [];
    ghost var round := 0;
    Start(groups);
    while exists g :: 0 <= g < |queues| && queues[g] != []
      invariant |queues| == |groups| && Queued(groups, queues, round, 0)
      invariant Drawn(groups, tags, Flat(waves) + current, Tag(round, 0))
      invariant |current| < waveSize && AllFull(waves, waveSize)
      decreases Left(groups, round)
    {
      LeftShrinks(groups, queues, round);
      for g := 0 to |queues|
        invariant |queues| == |groups|
        invariant Queued(groups, queues, round, g)
        invariant Drawn(groups, tags, Flat(waves) + current, Tag(round, g))
        invariant |current| < waveSize && AllFull(waves, waveSize)
      {
        Visit(groups, queues, round, g);
        if queues[g] != [] {
          DrawOne(groups, tags, Flat(waves) + current, Tag(round, g));
          tags := tags + [Tag(round, g)];
          assert Flat(waves) + current + [queues[g][0]] == Flat(waves) + (current + [queues[g][0]]);
          current := current + [queues[g][0]];
          queues := queues[g := queues[g][1..]];
          if |current| >= waveSize {
            Close(waves, current, waveSize);
            waves := waves + [current];
            current := [];
          }
        } else {
          SkipOne(groups, tags, Flat(waves) + current, Tag(round, g));
        }
      }
      NextRound(groups, queues, tags, Flat(waves) + current, round);
      round := round + 1;
    }
    AllDrawn(groups, queues, tags, Flat(waves) + current, round);
    SizesOf(waves, current, waveSize);
    if current != [] {
      FlatAppend(waves, current);
      waves := waves + [current];
    } else {
      assert Flat(waves) + current == Flat(waves);
    }
  }

  /** In round `round`, the groups before `g` have given their element and the others have not. */
  ghost predicate Queued(groups: seq<seq<DeviceId>>, queues: seq<seq<DeviceId>>, round: nat, g: nat) {
    && |queues| == |groups|
    && forall h | 0 <= h < |groups| :: queues[h] == Rest(groups[h], if h < g then round + 1 else round)
  }

  ghost predicate AllFull(waves: seq<seq<DeviceId>>, waveSize: nat) {
    forall i | 0 <= i < |waves| :: |waves[i]| == waveSize
  }

  lemma SizesOf(waves: seq<seq<DeviceId>>, current: seq<DeviceId>, waveSize: nat)
    requires AllFull(waves, waveSize) && |current| < waveSize
    ensures WellSized(waves, waveSize)
    ensures current != [] ==> WellSized(waves + [current], waveSize)
  {
  }

  lemma Close(waves: seq<seq<DeviceId>>, current: seq<DeviceId>, waveSize: nat)
    requires AllFull(waves, waveSize) && |current| == waveSize
    ensures AllFull(waves + [current], waveSize)
    ensures Flat(waves + [current]) + [] == Flat(waves) + current
  {
    FlatAppend(waves, current);
  }

  lemma Start(groups: seq<seq<DeviceId>>)
    ensures Drawn(groups, [], Flat([]) + [], Tag(0, 0)) && Queued(groups, groups, 0, 0) && AllFull([], 0)
    ensures forall n: nat :: AllFull([], n)
  {
  }

  lemma Visit(groups: seq<seq<DeviceId>>, queues: seq<seq<DeviceId>>, round: nat, g: nat)
    requires Queued(groups, queues, round, g) && g < |groups|
    ensures |queues| == |groups| && (queues[g] != [] <==> InGroups(groups, Tag(round, g)))
    ensures queues[g] != [] ==>
              && round < |groups[g]| && queues[g][0] == groups[g][round]
              && Queued(groups, queues[g := queues[g][1..]], round, g + 1)
    ensures queues[g] == [] ==> Queued(groups, queues, round, g + 1)
  {
    assert queues[g] == Rest(groups[g], round);
  }

  lemma NextRound(groups: seq<seq<DeviceId>>, queues: seq<seq<DeviceId>>, tags: seq<Tag>, flat: seq<DeviceId>,
                  round: nat)
    requires Queued(groups, queues, round, |groups|) && Drawn(groups, tags, flat, Tag(round, |groups|))
    ensures Queued(groups, queues, round + 1, 0) && Drawn(groups, tags, flat, Tag(round + 1, 0))
  {
  }

  lemma AllDrawn(groups: seq<seq<DeviceId>>, queues: seq<seq<DeviceId>>, tags: seq<Tag>, flat: seq<DeviceId>,
                 round: nat)
    requires Queued(groups, queues, round, 0) && Drawn(groups, tags, flat, Tag(round, 0))
    requires !exists g :: 0 <= g < |queues| && queues[g] != []
    ensures RoundRobin(groups, tags, flat)
  {
    forall t: Tag | InGroups(groups, t) ensures t in tags {
      assert queues[t.group] == Rest(groups[t.group], round) == [];
    }
  }

  function Rest(group: seq<DeviceId>, round: nat): seq<DeviceId> {
    if round <= |group| then group[round..] else []
  }

  /** Elements still to come. */
  ghost function Left(groups: seq<seq<DeviceId>>, round: nat): nat {
    if groups == [] then 0 else Left(groups[1..], round) + |Rest(groups[0], round)|
  }

  lemma {:induction false} LeftShrinks(groups: seq<seq<DeviceId>>, queues: seq<seq<DeviceId>>, round: nat)
    requires Queued(groups, queues, round, 0)
    ensures Left(groups, round + 1) <= Left(groups, round)
    ensures (exists g :: 0 <= g < |queues| && queues[g] != []) ==> Left(groups, round + 1) < Left(groups, round)
  {
    if groups == [] {
    } else {
      LeftShrinks(groups[1..], queues[1..], round);
      assert queues[0] == Rest(groups[0], round);
      if exists g :: 0 <= g < |queues| && queues[g] != [] {
        var g :| 0 <= g < |queues| && queues[g] != [];
        assert g > 0 ==> queues[1..][g - 1] != [];
      }
    }
  }

  // ── what round robin guarantees ──

  /** The groups hold every device of `all` exactly once. */
  ghost predicate Partition(groups: seq<seq<DeviceId>>, all: set<DeviceId>) {
    && (forall t: Tag | InGroups(groups, t) :: groups[t.group][t.round] in all)
    && (forall d | d in all :: exists t: Tag :: InGroups(groups, t) && groups[t.group][t.round] == d)
    && (forall t: Tag, u: Tag | InGroups(groups, t) && InGroups(groups, u) && t != u ::
          groups[t.group][t.round] != groups[u.group][u.round])
  }

  /** The waves together are a permutation of the distinct device ids. */
  lemma RoundRobinIsPermutation(groups: seq<seq<DeviceId>>, tags: seq<Tag>, flat: seq<DeviceId>, all: set<DeviceId>)
    requires RoundRobin(groups, tags, flat) && Partition(groups, all)
    ensures multiset(flat) == multiset(all)
  {
    forall i, j | 0 <= i < j < |flat| ensures flat[i] != flat[j] {
      assert Earlier(tags[i], tags[j]);
    }
    forall d | d in all ensures d in flat {
      var t: Tag :| InGroups(groups, t) && groups[t.group][t.round] == d;
      assert t in tags;
    }
    assert forall d | d in flat :: d in all;
    NoRepeats(flat, all);
  }

  lemma {:induction false} NoRepeats(flat: seq<DeviceId>, all: set<DeviceId>)
    requires forall i, j | 0 <= i < j < |flat| :: flat[i] != flat[j]
    requires forall d :: d in flat <==> d in all
    ensures multiset(flat) == multiset(all)
  {
    if flat == [] {
      assert all == {};
    } else {
      var front, last := flat[..|flat| - 1], flat[|flat| - 1];
      assert flat == front + [last];
      NoRepeats(front, all - {last});
      assert multiset(all) == multiset(all - {last}) + multiset{last};
    }
  }

  function Count(tags: seq<Tag>, group: nat): nat {
    if tags == [] then 0
    else Count(tags[..|tags| - 1], group) + if tags[|tags| - 1].group == group then 1 else 0
  }

  /** In a strictly ordered list, what lies between two members in order lies between them in place. */
  lemma Between(tags: seq<Tag>, a: nat, b: nat, t: Tag) returns (q: nat)
    requires forall i, j | 0 <= i < j < |tags| :: Earlier(tags[i], tags[j])
    requires a < |tags| && b < |tags| && t in tags && Earlier(tags[a], t) && Earlier(t, tags[b])
    ensures a < q < b && tags[q] == t
  {
    q :| 0 <= q < |tags| && tags[q] == t;
    assert q != a && q != b;
    assert forall i | 0 <= i < a :: Earlier(tags[i], tags[a]);
    assert forall i | b < i < |tags| :: Earlier(tags[b], tags[i]);
  }

  /** Between two draws from `g`, a group with something left later gives an element. */
  lemma DrawsAlternate(groups: seq<seq<DeviceId>>, tags: seq<Tag>, flat: seq<DeviceId>,
                       p: nat, j: nat, k: nat, g: nat, h: nat) returns (q: nat)
    requires RoundRobin(groups, tags, flat) && p < j < k < |tags| && g != h
    requires tags[p].group == g == tags[j].group && tags[k].group == h
    ensures p < q < j && (tags[q].group == g || tags[q].group == h)
  {
    var r := tags[p].round;
    assert Earlier(tags[p], tags[j]) && Earlier(tags[j], tags[k]);
    if tags[j].round > r + 1 {
      assert InGroups(groups, Tag(r + 1, g));
      q := Between(tags, p, j, Tag(r + 1, g));
    } else {
      var t := Tag(if h > g then r else r + 1, h);
      assert InGroups(groups, t);
      q := Between(tags, p, j, t);
    }
  }

  /** `g` leads `h` by at most one draw, and only right after drawing from `g`. */
  ghost predicate Fair(tags: seq<Tag>, i: nat, j: nat, g: nat, h: nat)
    requires i <= j <= |tags|
  {
    || Count(tags[i..j], g) <= Count(tags[i..j], h)
    || (Count(tags[i..j], g) == Count(tags[i..j], h) + 1
        && exists p :: i <= p < j && tags[p].group == g && Quiet(tags, p + 1, j, g, h))
  }

  ghost predicate Quiet(tags: seq<Tag>, from: nat, to: nat, g: nat, h: nat)
    requires to <= |tags|
  {
    forall q | from <= q < to :: tags[q].group != g && tags[q].group != h
  }

  lemma CountNone(g: nat)
    ensures Count([], g) == 0
  {
  }

  lemma CountNext(tags: seq<Tag>, i: nat, j: nat, g: nat)
    requires i < j <= |tags|
    ensures Count(tags[i..j], g) == Count(tags[i..j - 1], g) + if tags[j - 1].group == g then 1 else 0
  {
    assert tags[i..j][..j - 1 - i] == tags[i..j - 1];
  }

  lemma {:induction false} FairUpTo(groups: seq<seq<DeviceId>>, tags: seq<Tag>, flat: seq<DeviceId>,
                                    i: nat, j: nat, k: nat, g: nat, h: nat)
    requires RoundRobin(groups, tags, flat) && i <= j <= k < |tags| && tags[k].group == h && g != h
    ensures Fair(tags, i, j, g, h)
    decreases j
  {
    hide RoundRobin, Count;
    CountNone(g);
    if i == j {
      assert tags[i..j] == [];
    } else {
      FairUpTo(groups, tags, flat, i, j - 1, k, g, h);
      CountNext(tags, i, j, g);
      CountNext(tags, i, j, h);
      if Count(tags[i..j - 1], g) > Count(tags[i..j - 1], h) {
        var p :| i <= p < j - 1 && tags[p].group == g && Quiet(tags, p + 1, j - 1, g, h);
        if tags[j - 1].group == g {
          var q := DrawsAlternate(groups, tags, flat, p, j - 1, k, g, h);
        } else if tags[j - 1].group != h {
          assert Quiet(tags, p + 1, j, g, h);
        }
      } else if tags[j - 1].group == g {
        assert Quiet(tags, j, j, g, h);
      }
    }
  }

  /**
   Fairness: over any stretch of the launch order, a workstation that still has devices
   afterwards is behind no other by more than one.
   */
  lemma RoundRobinIsFair(groups: seq<seq<DeviceId>>, tags: seq<Tag>, flat: seq<DeviceId>,
                         i: nat, j: nat, k: nat, g: nat)
    requires RoundRobin(groups, tags, flat) && i <= j <= k < |tags|
    ensures Count(tags[i..j], g) <= Count(tags[i..j], tags[k].group) + 1
  {
    if g != tags[k].group {
      FairUpTo(groups, tags, flat, i, j, k, g, tags[k].group);
    }
  }

  // ── grouping by workstation ──

  /** A device row: its id and the `workstation_id` of its meta data, if any. */
  datatype Row = Row(id: DeviceId, workstation: Option<string>)

  const NO_WORKSTATION := "no_workstation"

  /** An absent or empty workstation id counts as none. */
  function Workstation(row: Row): string {
    match row.workstation
    case None => NO_WORKSTATION
    case Some(name) => if name == "" then NO_WORKSTATION else name
  }

  /** The workstation of each device; devices without a row have none. */
  ghost function Label(rows: seq<Row>, d: DeviceId): string {
    if row :| row in rows && row.id == d then Workstation(row) else NO_WORKSTATION
  }

  /** Where a device stands. */
  datatype Place = At(workstation: string) | Nowhere

  /**
   What the rows say: a device stands at the workstation its row names. It stands nowhere if its row
   has no id, an empty one or "no_workstation", or if there is no row.
   */
  ghost predicate Stands(rows: seq<Row>, d: DeviceId, p: Place) {
    match p
    case At(name) => name != "" && name != "no_workstation" && Row(d, Some(name)) in rows
    case Nowhere =>
      forall row | row in rows && row.id == d ::
        row.workstation == None || row.workstation == Some("") || row.workstation == Some("no_workstation")
  }

  ghost predicate SamePlace(rows: seq<Row>, d: DeviceId, e: DeviceId) {
    exists p :: Stands(rows, d, p) && Stands(rows, e, p)
  }

  /** One row per id. */
  ghost predicate Single(rows: seq<Row>) {
    forall i, k | 0 <= i < k < |rows| :: rows[i].id != rows[k].id
  }

  function NameOf(p: Place): string {
    match p case At(name) => name case Nowhere => NO_WORKSTATION
  }

  predicate Proper(p: Place) {
    p.At? ==> p.workstation != "" && p.workstation != NO_WORKSTATION
  }

  /** The dictionary key of a device is its place, written as a string. */
  lemma StandsExactly(rows: seq<Row>, d: DeviceId, p: Place)
    requires Single(rows)
    ensures Stands(rows, d, p) <==> Proper(p) && Label(rows, d) == NameOf(p)
  {
    if row :| row in rows && row.id == d {
      assert forall other | other in rows && other.id == d :: other == row;
      assert row == Row(d, row.workstation);
    }
  }

  lemma SomePlace(rows: seq<Row>, d: DeviceId) returns (p: Place)
    requires Single(rows)
    ensures Stands(rows, d, p)
  {
    p := if Label(rows, d) == NO_WORKSTATION then Nowhere else At(Label(rows, d));
    assert Label(rows, d) != "";
    StandsExactly(rows, d, p);
  }

  lemma SamePlaceExactly(rows: seq<Row>, d: DeviceId, e: DeviceId)
    requires Single(rows)
    ensures SamePlace(rows, d, e) <==> Label(rows, d) == Label(rows, e)
  {
    hide Stands, Label, Single;
    var p := SomePlace(rows, d);
    StandsExactly(rows, d, p);
    StandsExactly(rows, e, p);
    forall q ensures (Stands(rows, d, q) ==> Label(rows, d) == NameOf(q))
      && (Stands(rows, e, q) ==> Label(rows, e) == NameOf(q))
    {
      StandsExactly(rows, d, q);
      StandsExactly(rows, e, q);
    }
  }

  ghost function Ids(rows: seq<Row>): set<DeviceId> {
    set row | row in rows :: row.id
  }

  /** Names are distinct, one per group, and the groups partition `all` by workstation. */
  ghost predicate Grouped(names: seq<string>, groups: seq<seq<DeviceId>>, all: set<DeviceId>, rows: seq<Row>) {
    && |names| == |groups|
    && (forall g, h | 0 <= g < h < |names| :: names[g] != names[h])
    && Partition(groups, all)
    && (forall t: Tag | InGroups(groups, t) :: Label(rows, groups[t.group][t.round]) == names[t.group])
  }

  /** Two devices are in one group exactly when they stand at the same place. */
  ghost predicate ByPlace(groups: seq<seq<DeviceId>>, rows: seq<Row>) {
    forall t: Tag, u: Tag | InGroups(groups, t) && InGroups(groups, u) ::
      t.group == u.group <==> SamePlace(rows, groups[t.group][t.round], groups[u.group][u.round])
  }

  lemma GroupedByPlace(names: seq<string>, groups: seq<seq<DeviceId>>, all: set<DeviceId>, rows: seq<Row>)
    requires Grouped(names, groups, all, rows) && Single(rows)
    ensures ByPlace(groups, rows)
  {
    hide Single, SamePlace, Label;
    forall t: Tag, u: Tag | InGroups(groups, t) && InGroups(groups, u)
      ensures t.group == u.group <==> SamePlace(rows, groups[t.group][t.round], groups[u.group][u.round])
    {
      SamePlaceExactly(rows, groups[t.group][t.round], groups[u.group][u.round]);
    }
  }

  /** The position of a key of the ordered dictionary, or its length. */
  method Find(names: seq<string>, name: string) returns (g: nat)
    ensures g <= |names| && name !in names[..g] && (g < |names| ==> names[g] == name)
  {
    g := 0;
    while g < |names| && names[g] != name
      invariant g <= |names| && name !in names[..g]
    {
      g := g + 1;
    }
  }

  /** `ws_to_devices[name].append(d)`, creating the group if it is new. */
  method Put(names: seq<string>, groups: seq<seq<DeviceId>>, name: string, d: DeviceId,
             ghost all: set<DeviceId>, ghost rows: seq<Row>)
    returns (names': seq<string>, groups': seq<seq<DeviceId>>)
    requires Grouped(names, groups, all, rows) && d !in all && Label(rows, d) == name
    ensures Grouped(names', groups', all + {d}, rows)
  {
    var g := Find(names, name);
    if g < |names| {
      names', groups' := names, groups[g := groups[g] + [d]];
      PutOld(names, groups, g, d, all, rows);
    } else {
      names', groups' := names + [name], groups + [[d]];
      PutNew(names, groups, name, d, all, rows);
    }
  }

  lemma PutOld(names: seq<string>, groups: seq<seq<DeviceId>>, g: nat, d: DeviceId, all: set<DeviceId>, rows: seq<Row>)
    requires Grouped(names, groups, all, rows) && d !in all && g < |names| && Label(rows, d) == names[g]
    ensures Grouped(names, groups[g := groups[g] + [d]], all + {d}, rows)
  {
    PartitionAdd(groups, groups[g := groups[g] + [d]], Tag(|groups[g]|, g), d, all);
  }

  lemma PutNew(names: seq<string>, groups: seq<seq<DeviceId>>, name: string, d: DeviceId, all: set<DeviceId>,
               rows: seq<Row>)
    requires Grouped(names, groups, all, rows) && d !in all && name !in names && Label(rows, d) == name
    ensures Grouped(names + [name], groups + [[d]], all + {d}, rows)
  {
    PartitionAdd(groups, groups + [[d]], Tag(0, |groups|), d, all);
  }

  /** One new place holds one new device. */
  lemma PartitionAdd(groups: seq<seq<DeviceId>>, groups': seq<seq<DeviceId>>, place: Tag, d: DeviceId,
                     all: set<DeviceId>)
    requires Partition(groups, all) && d !in all
    requires !InGroups(groups, place) && InGroups(groups', place) && groups'[place.group][place.round] == d
    requires forall t: Tag | t != place :: InGroups(groups', t) <==> InGroups(groups, t)
    requires forall t: Tag | InGroups(groups, t) && InGroups(groups', t) ::
               groups'[t.group][t.round] == groups[t.group][t.round]
    ensures Partition(groups', all + {d})
  {
    forall e | e in all + {d} ensures exists t: Tag :: InGroups(groups', t) && groups'[t.group][t.round] == e {
      if e == d {
        assert InGroups(groups', place);
      } else {
        var t: Tag :| InGroups(groups, t) && groups[t.group][t.round] == e;
        assert InGroups(groups', t);
      }
    }
  }

  /** Groups the rows of the query, then the requested devices that have no row. */
  method GroupByWorkstation(devices: seq<DeviceId>, rows: seq<Row>)
    returns (names: seq<string>, groups: seq<seq<DeviceId>>)
    requires Single(rows)
    requires forall row | row in rows :: row.id in devices
    ensures Grouped(names, groups, Asked(devices), rows) && Partition(groups, Asked(devices)) && ByPlace(groups, rows)
  {
    names, groups := [], [];
    for i := 0 to |rows|
      invariant Grouped(names, groups, Ids(rows[..i]), rows)
    {
      LabelOf(rows, i);
      IdsNext(rows, i);
      names, groups := Put(names, groups, Workstation(rows[i]), rows[i].id, Ids(rows[..i]), rows);
    }
    assert rows[..|rows|] == rows;
    var missing := Asked(devices) - (set row | row in rows :: row.id);
    var todo := missing;
    while todo != {}
      invariant todo <= missing
      invariant Grouped(names, groups, Ids(rows) + (missing - todo), rows)
      decreases todo
    {
      var d :| d in todo;
      assert Ids(rows) + (missing - (todo - {d})) == Ids(rows) + (missing - todo) + {d};
      assert Label(rows, d) == NO_WORKSTATION;
      names, groups := Put(names, groups, NO_WORKSTATION, d, Ids(rows) + (missing - todo), rows);
      todo := todo - {d};
    }
    assert Ids(rows) + (missing - todo) == Asked(devices);
    GroupedByPlace(names, groups, Asked(devices), rows);
  }

  lemma LabelOf(rows: seq<Row>, i: nat)
    requires i < |rows| && Single(rows)
    ensures Label(rows, rows[i].id) == Workstation(rows[i])
  {
    assert rows[i] in rows;
  }

  lemma IdsNext(rows: seq<Row>, i: nat)
    requires i < |rows| && Single(rows)
    ensures Ids(rows[..i + 1]) == Ids(rows[..i]) + {rows[i].id} && rows[i].id !in Ids(rows[..i])
  {
    assert rows[..i + 1] == rows[..i] + [rows[i]];
    assert forall row :: row in rows[..i] + [rows[i]] <==> row in rows[..i] || row == rows[i];
    assert rows[i] in rows[..i + 1];
  }

  // ── what a staggered plan guarantees to workstations ──

  /** How many of the devices stand at the place. */
  ghost function CountAt(rows: seq<Row>, devices: seq<DeviceId>, p: Place): nat {
    if devices == [] then 0
    else CountAt(rows, devices[..|devices| - 1], p) + if Stands(rows, devices[|devices| - 1], p) then 1 else 0
  }

  /**
   Over any stretch of the launch order no place is ahead by more than one of a place from which a
   device is still to come.
   */
  ghost predicate Staggered(rows: seq<Row>, flat: seq<DeviceId>) {
    forall i, j, k, p, q | 0 <= i <= j <= k < |flat| && Stands(rows, flat[k], q) ::
      CountAt(rows, flat[i..j], p) <= CountAt(rows, flat[i..j], q) + 1
  }

  lemma {:induction false} SameCounts(rows: seq<Row>, tags: seq<Tag>, flat: seq<DeviceId>, p: Place, g: nat)
    requires |tags| == |flat| && forall x | 0 <= x < |flat| :: Stands(rows, flat[x], p) <==> tags[x].group == g
    ensures CountAt(rows, flat, p) == Count(tags, g)
  {
    if flat == [] {
    } else {
      SameCounts(rows, tags[..|tags| - 1], flat[..|flat| - 1], p, g);
    }
  }

  lemma {:induction false} NoneThere(rows: seq<Row>, flat: seq<DeviceId>, p: Place)
    requires forall x | 0 <= x < |flat| :: !Stands(rows, flat[x], p)
    ensures CountAt(rows, flat, p) == 0
  {
    if flat == [] {
    } else {
      NoneThere(rows, flat[..|flat| - 1], p);
    }
  }

  /** The group of a place: its devices are exactly those drawn from the group of one of them. */
  lemma GroupOfPlace(names: seq<string>, groups: seq<seq<DeviceId>>, all: set<DeviceId>, rows: seq<Row>,
                     tags: seq<Tag>, flat: seq<DeviceId>, k: nat, p: Place)
    requires Grouped(names, groups, all, rows) && RoundRobin(groups, tags, flat) && Single(rows)
    requires k < |flat| && Stands(rows, flat[k], p)
    ensures forall x | 0 <= x < |flat| :: Stands(rows, flat[x], p) <==> tags[x].group == tags[k].group
  {
    hide Single, Label, Stands;
    StandsExactly(rows, flat[k], p);
    forall x | 0 <= x < |flat| ensures Stands(rows, flat[x], p) <==> tags[x].group == tags[k].group {
      StandsExactly(rows, flat[x], p);
      assert InGroups(groups, tags[x]) && InGroups(groups, tags[k]);
    }
  }

  lemma CountOfPlace(names: seq<string>, groups: seq<seq<DeviceId>>, all: set<DeviceId>, rows: seq<Row>,
                     tags: seq<Tag>, flat: seq<DeviceId>, i: nat, j: nat, k: nat, p: Place)
    requires Grouped(names, groups, all, rows) && RoundRobin(groups, tags, flat) && Single(rows)
    requires i <= j <= |flat| && k < |flat| && Stands(rows, flat[k], p)
    ensures CountAt(rows, flat[i..j], p) == Count(tags[i..j], tags[k].group)
  {
    GroupOfPlace(names, groups, all, rows, tags, flat, k, p);
    SameCounts(rows, tags[i..j], flat[i..j], p, tags[k].group);
  }

  /** Round robin over the groups of workstations is fair to the workstations. */
  lemma RoundRobinIsStaggered(names: seq<string>, groups: seq<seq<DeviceId>>, all: set<DeviceId>, rows: seq<Row>,
                              tags: seq<Tag>, flat: seq<DeviceId>)
    requires Grouped(names, groups, all, rows) && RoundRobin(groups, tags, flat) && Single(rows)
    ensures Staggered(rows, flat)
  {
    hide Grouped, Single, Stands, Count, CountAt;
    forall i, j, k, p, q | 0 <= i <= j <= k < |flat| && Stands(rows, flat[k], q)
      ensures CountAt(rows, flat[i..j], p) <= CountAt(rows, flat[i..j], q) + 1
    {
      if x :| i <= x < j && Stands(rows, flat[x], p) {
        CountOfPlace(names, groups, all, rows, tags, flat, i, j, x, p);
        CountOfPlace(names, groups, all, rows, tags, flat, i, j, k, q);
        RoundRobinIsFair(groups, tags, flat, i, j, k, tags[x].group);
      } else {
        NoneThere(rows, flat[i..j], p);
      }
    }
  }

  /** How many of the devices stand at one of the places. */
  ghost function CountAmong(rows: seq<Row>, devices: seq<DeviceId>, some: set<Place>): nat {
    if devices == [] then 0
    else
      CountAmong(rows, devices[..|devices| - 1], some)
      + if StandsAmong(rows, devices[|devices| - 1], some) then 1 else 0
  }

  ghost predicate StandsAmong(rows: seq<Row>, d: DeviceId, some: set<Place>) {
    exists p :: p in some && Stands(rows, d, p)
  }

  /** A device stands at one place only. */
  lemma StandsOnce(rows: seq<Row>, d: DeviceId, some: set<Place>, x: Place)
    requires Single(rows) && x in some
    ensures StandsAmong(rows, d, some) <==> StandsAmong(rows, d, some - {x}) || Stands(rows, d, x)
    ensures !(StandsAmong(rows, d, some - {x}) && Stands(rows, d, x))
  {
    hide Single, Stands;
    forall p | Stands(rows, d, p) && Stands(rows, d, x) ensures p == x {
      StandsExactly(rows, d, p);
      StandsExactly(rows, d, x);
    }
    if p :| p in some && Stands(rows, d, p) {
      assert p == x || p in some - {x};
    }
  }

  lemma {:induction false} CountAmongSplit(rows: seq<Row>, devices: seq<DeviceId>, some: set<Place>, x: Place)
    requires Single(rows) && x in some
    ensures CountAmong(rows, devices, some) == CountAmong(rows, devices, some - {x}) + CountAt(rows, devices, x)
    ensures CountAmong(rows, devices, some) <= |devices|
  {
    hide Single, Stands, StandsAmong;
    if devices == [] {
    } else {
      CountAmongSplit(rows, devices[..|devices| - 1], some, x);
      StandsOnce(rows, devices[|devices| - 1], some, x);
    }
  }

  lemma {:induction false} SharesAddUp(rows: seq<Row>, devices: seq<DeviceId>, some: set<Place>, least: nat, p: Place)
    requires Single(rows)
    requires forall q | q in some :: CountAt(rows, devices, q) >= least
    requires p in some ==> CountAt(rows, devices, p) >= least + 1
    ensures CountAmong(rows, devices, some) >= |some| * least + if p in some then 1 else 0
    decreases some
  {
    hide Single, CountAt, CountAmong;
    if some == {} {
    } else {
      var x := if p in some then p else var x :| x in some; x;
      SharesAddUp(rows, devices, some - {x}, least, p);
      CountAmongSplit(rows, devices, some, x);
      assert |some| * least == |some - {x}| * least + least by {
        assert |some| == |some - {x}| + 1;
      }
    }
  }

  /** From position `j` on, a device of place `q` is still to come. */
  ghost predicate ComesAfter(rows: seq<Row>, flat: seq<DeviceId>, j: nat, q: Place) {
    exists k :: j <= k < |flat| && Stands(rows, flat[k], q)
  }

  /**
   Share of a stretch: if the places `live` all still have devices after it, none of them supplied
   more than a |live|-th of it, rounded up.
   */
  lemma ShareOfStretch(rows: seq<Row>, flat: seq<DeviceId>, i: nat, j: nat, live: set<Place>, p: Place)
    requires Single(rows) && Staggered(rows, flat) && i <= j <= |flat| && p in live
    requires forall q | q in live :: ComesAfter(rows, flat, j, q)
    ensures CountAt(rows, flat[i..j], p) <= (j - i + |live| - 1) / |live|
  {
    hide Single, Stands, CountAt;
    var m := CountAt(rows, flat[i..j], p);
    if m > 0 {
      forall q | q in live ensures CountAt(rows, flat[i..j], q) >= m - 1 {
        var k :| j <= k < |flat| && Stands(rows, flat[k], q);
      }
      SharesAddUp(rows, flat[i..j], live, m - 1, p);
      CountAmongSplit(rows, flat[i..j], live, p);
      assert |live| * (m - 1) + 1 <= j - i;
      Ceiling(m, |live|, j - i);
    }
  }

  lemma Ceiling(m: nat, n: nat, size: nat)
    requires m > 0 && n > 0 && n * (m - 1) + 1 <= size
    ensures m <= (size + n - 1) / n
  {
    assert n * m == n * (m - 1) + n;
    assert n * m <= size + n - 1;
    QuotientIsBigger(m, n, size + n - 1);
  }

  lemma QuotientIsBigger(m: nat, n: nat, x: nat)
    requires n > 0 && n * m <= x
    ensures m <= x / n
  {
    var q := x / n;
    assert x == n * q + x % n;
    assert n * (q + 1) == n * q + n;
    assert q + 1 <= m ==> n * (q + 1) <= n * m;
  }

  /** Wave `m` is the stretch of the launch order that starts at `from` = m * waveSize. */
  lemma {:induction false} WaveAt(waves: seq<seq<DeviceId>>, waveSize: nat, m: nat, from: nat)
    requires WellSized(waves, waveSize) && m < |waves| && from == m * waveSize
    ensures from + |waves[m]| <= |Flat(waves)|
    ensures Flat(waves)[from..from + |waves[m]|] == waves[m]
    decreases |waves|
  {
    var front, last := waves[..|waves| - 1], waves[|waves| - 1];
    if m < |front| {
      WaveAt(front, waveSize, m, from);
      assert front[m] == waves[m];
    } else {
      FlatSize(front, waveSize);
    }
  }

  lemma {:induction false} FlatSize(waves: seq<seq<DeviceId>>, waveSize: nat)
    requires forall i | 0 <= i < |waves| :: |waves[i]| == waveSize
    ensures |Flat(waves)| == |waves| * waveSize
  {
    if waves == [] {
    } else {
      FlatSize(waves[..|waves| - 1], waveSize);
      assert |waves| * waveSize == (|waves| - 1) * waveSize + waveSize;
    }
  }

  /** A device of a later wave comes after wave `m` in the launch order. */
  lemma LaterWave(waves: seq<seq<DeviceId>>, waveSize: nat, m: nat, n: nat, d: DeviceId, to: nat) returns (k: nat)
    requires WellSized(waves, waveSize) && m < n < |waves| && d in waves[n] && to == m * waveSize + |waves[m]|
    ensures to <= k < |Flat(waves)| && Flat(waves)[k] == d
  {
    var x :| 0 <= x < |waves[n]| && waves[n][x] == d;
    var from := n * waveSize;
    LaterStart(m, n, waveSize);
    WaveAt(waves, waveSize, n, from);
    assert |waves[m]| == waveSize;
    hide Flat, WellSized;
    k := from + x;
    assert Flat(waves)[from..from + |waves[n]|][x] == d;
  }

  lemma {:induction false} LaterStart(m: nat, n: nat, waveSize: nat)
    requires m < n
    ensures m * waveSize + waveSize <= n * waveSize
    decreases n
  {
    assert n * waveSize == (n - 1) * waveSize + waveSize;
    if n == m + 1 {
    } else {
      LaterStart(m, n - 1, waveSize);
    }
  }

  /** From each of the places a device comes in a later wave. */
  ghost predicate StillToCome(rows: seq<Row>, waves: seq<seq<DeviceId>>, m: nat, live: set<Place>) {
    forall q | q in live :: exists n, d :: m < n < |waves| && d in waves[n] && Stands(rows, d, q)
  }

  lemma ComeLater(rows: seq<Row>, waves: seq<seq<DeviceId>>, waveSize: nat, m: nat, live: set<Place>, to: nat)
    requires WellSized(waves, waveSize) && m < |waves| && StillToCome(rows, waves, m, live)
    requires to == m * waveSize + |waves[m]|
    ensures forall q | q in live :: ComesAfter(rows, Flat(waves), to, q)
  {
    hide Stands, Flat, WellSized;
    forall q | q in live ensures ComesAfter(rows, Flat(waves), to, q) {
      var n, d :| m < n < |waves| && d in waves[n] && Stands(rows, d, q);
      var k := LaterWave(waves, waveSize, m, n, d, to);
    }
  }

  /** The share of a workstation in wave `m`, when devices of all the places `live` come in later waves. */
  lemma ShareOfWave(rows: seq<Row>, waves: seq<seq<DeviceId>>, waveSize: nat, m: nat, live: set<Place>, p: Place)
    requires WellSized(waves, waveSize) && Single(rows) && Staggered(rows, Flat(waves))
    requires m < |waves| && p in live && StillToCome(rows, waves, m, live)
    ensures CountAt(rows, waves[m], p) <= (|waves[m]| + |live| - 1) / |live|
  {
    hide *;
    var from := m * waveSize;
    WaveAt(waves, waveSize, m, from);
    ComeLater(rows, waves, waveSize, m, live, from + |waves[m]|);
    ShareOfStretch(rows, Flat(waves), from, from + |waves[m]|, live, p);
  }

  /**
   Both branches of `create_waves`. `rows` is what the device query returned: one row per id, only
   ids that were asked for.
   */
  method CreateWaves(devices: seq<DeviceId>, rows: seq<Row>, waveSize: nat, stagger: bool)
    returns (waves: seq<seq<DeviceId>>, ghost groups: seq<seq<DeviceId>>, ghost tags: seq<Tag>)
    requires waveSize > 0
    requires Single(rows)
    requires forall row | row in rows :: row.id in devices
    ensures WellSized(waves, waveSize) && Plan(devices, Flat(waves))
    ensures !stagger ==> Flat(waves) == devices
    ensures stagger ==> multiset(Flat(waves)) == multiset(Asked(devices))
    ensures stagger ==> Partition(groups, Asked(devices)) && ByPlace(groups, rows)
    ensures stagger ==> RoundRobin(groups, tags, Flat(waves)) && Staggered(rows, Flat(waves))
  {
    if !stagger {
      waves := Chunks(devices, waveSize);
      groups, tags := [], [];
      return;
    }
    var names, queues := GroupByWorkstation(devices, rows);
    waves, tags := Drain(queues, waveSize);
    groups := queues;
    hide ByPlace, Single, Staggered;
    RoundRobinIsPermutation(groups, tags, Flat(waves), Asked(devices));
    RoundRobinIsStaggered(names, groups, Asked(devices), rows, tags, Flat(waves));
  }
}
