/**
 Canonicalization of mirrored devices (custom_components/smartthings_web/device_identity.py):
 an unambiguous cloud/local pair becomes one device, and the hidden half an alias.

 Names and types are given in the form the grouping compares them in, component roles as
 whether they mean "main", and timestamps as the aware instant they parse to, if any.
 */
module DeviceMirrors {
  import opened Wrappers

  datatype Context = Cloud | Local | OtherContext
  datatype State = State(attribute: string, isMain: bool, updatedAt: Option<int>, value: string)
  datatype Stamp = Stamp(text: string, instant: Option<int>)
  datatype Metadata = Metadata(owner: string, parent: string, context: Context, linked: set<string>,
                               categories: seq<string>)
  datatype Device = Device(
    id: string,
    location: string,
    room: Option<string>,
    name: string,
    kind: Option<string>,
    advanced: Option<Metadata>,
    states: map<string, State>,
    controls: set<string>,
    online: bool,
    healthUpdatedAt: Stamp)

  datatype GroupKey = GroupKey(location: string, room: Option<string>, name: string, kind: Option<string>,
                               owner: string)

  type Inventory = map<string, Device>

  const REQUIRED := {"switch", "level", "hue", "saturation"}

  /** The inventory is keyed by device ID. */
  predicate IsKeyed(devices: Inventory) { forall id :: id in devices ==> devices[id].id == id }

  /** Devices without an owner are never grouped. */
  function KeyOf(d: Device): Option<GroupKey> {
    if d.advanced == None || d.advanced.value.owner == "" then None
    else Some(GroupKey(d.location, d.room, d.name, d.kind, d.advanced.value.owner))
  }

  function Signature(d: Device): set<string> {
    set key | key in d.states && d.states[key].isMain :: d.states[key].attribute
  }

  predicate HasContext(d: Device, context: Context) { d.advanced.Some? && d.advanced.value.context == context }

  /** What makes two devices of one group a mirrored pair. */
  predicate IsStrong(cloud: Device, local: Device) {
    && HasContext(cloud, Cloud) && HasContext(local, Local) && local.advanced.value.parent != ""
    && REQUIRED <= Signature(cloud) * Signature(local)
    && local.controls <= cloud.controls
  }

  // ---------------------------------------------------------------------------
  // Merging
  // ---------------------------------------------------------------------------

  predicate IsNewer(candidate: Option<int>, current: Option<int>) {
    candidate.Some? && (current.None? || candidate.value > current.value)
  }

  /** Which of two states of one key survives. */
  function Newest(cloud: map<string, State>, local: map<string, State>, key: string): State
    requires key in cloud || key in local
  {
    if key !in cloud then local[key]
    else if key in local && IsNewer(local[key].updatedAt, cloud[key].updatedAt) then local[key]
    else cloud[key]
  }

  function MergedStates(cloud: map<string, State>, local: map<string, State>): map<string, State> {
    map key | key in cloud.Keys + local.Keys :: Newest(cloud, local, key)
  }

  function NewerStamp(left: Stamp, right: Stamp): Stamp { if IsNewer(right.instant, left.instant) then right else left }

  function Merge(cloud: Device, local: Device): Device
    requires cloud.advanced.Some? && local.advanced.Some?
  {
    var c, l := cloud.advanced.value, local.advanced.value;
    cloud.(states := MergedStates(cloud.states, local.states),
           online := cloud.online || local.online,
           healthUpdatedAt := NewerStamp(cloud.healthUpdatedAt, local.healthUpdatedAt),
           advanced := Some(Metadata(c.owner, l.parent, c.context, c.linked + l.linked + {local.id}, c.categories)))
  }

  /** The states after all but the keys in `rest` have been looked at. */
  predicate IsMergedBut(cloud: map<string, State>, local: map<string, State>, rest: set<string>,
                        states: map<string, State>) {
    && rest <= local.Keys
    && states.Keys == cloud.Keys + (local.Keys - rest)
    && forall key :: key in states ==> states[key] == if key in rest then cloud[key] else Newest(cloud, local, key)
  }

  function WithLocal(local: map<string, State>, states: map<string, State>, key: string): map<string, State>
    requires key in local
  {
    if key !in states || IsNewer(local[key].updatedAt, states[key].updatedAt) then states[key := local[key]] else states
  }

  lemma MergeKey(cloud: map<string, State>, local: map<string, State>, rest: set<string>, states: map<string, State>,
                 key: string)
    requires IsMergedBut(cloud, local, rest, states) && key in rest
    ensures IsMergedBut(cloud, local, rest - {key}, WithLocal(local, states, key))
  {
    var after := WithLocal(local, states, key);
    assert key in states <==> key in cloud;
    assert after[key] == Newest(cloud, local, key);
  }

  lemma AllKeysMerged(cloud: map<string, State>, local: map<string, State>, states: map<string, State>)
    requires IsMergedBut(cloud, local, {}, states)
    ensures states == MergedStates(cloud, local)
  {
  }

  /** The loop over the local states. */
  method MergeStates(cloud: map<string, State>, local: map<string, State>) returns (states: map<string, State>)
    ensures states == MergedStates(cloud, local)
  {
    states := cloud;
    var rest := local.Keys;
    while rest != {}
      invariant IsMergedBut(cloud, local, rest, states)
      decreases |rest|
    {
      var key :| key in rest;
      MergeKey(cloud, local, rest, states, key);
      if key !in states || IsNewer(local[key].updatedAt, states[key].updatedAt) {
        states := states[key := local[key]];
      }
      rest := rest - {key};
    }
    AllKeysMerged(cloud, local, states);
  }

  method MergePair(cloud: Device, local: Device) returns (merged: Device)
    requires cloud.advanced.Some? && local.advanced.Some?
    ensures merged == Merge(cloud, local)
  {
    var states := MergeStates(cloud.states, local.states);
    var c, l := cloud.advanced.value, local.advanced.value;
    var stamp := if IsNewer(local.healthUpdatedAt.instant, cloud.healthUpdatedAt.instant)
                 then local.healthUpdatedAt else cloud.healthUpdatedAt;
    merged := cloud.(states := states, online := cloud.online || local.online, healthUpdatedAt := stamp,
                     advanced :=
                       Some(Metadata(c.owner, l.parent, c.context, c.linked + l.linked + {local.id}, c.categories)));
  }

  /** The first instant, if there is one, is no later than the second. */
  predicate NoNewer(a: Option<int>, b: Option<int>) { a.None? || (b.Some? && a.value <= b.value) }

  /** The merged device has every state either half has; each is one of theirs, neither half has
      a newer valid one, and the cloud's stays unless the local one is strictly newer. */
  lemma MergedStateIsNewest(cloud: Device, local: Device, key: string)
    requires cloud.advanced.Some? && local.advanced.Some?
    ensures key in Merge(cloud, local).states <==> key in cloud.states || key in local.states
    ensures key in Merge(cloud, local).states ==>
              var s := Merge(cloud, local).states[key];
              && ((key in cloud.states && s == cloud.states[key]) || (key in local.states && s == local.states[key]))
              && (key in cloud.states ==> NoNewer(cloud.states[key].updatedAt, s.updatedAt))
              && (key in local.states && key in cloud.states ==> NoNewer(local.states[key].updatedAt, s.updatedAt))
              && (key in cloud.states && key in local.states
                  && local.states[key].updatedAt == cloud.states[key].updatedAt ==>
                    s == cloud.states[key])
  {
  }

  /** Apart from its states, the merged device is the cloud half, online if either half is, with the
      newer valid health stamp (the cloud's on a tie), the links of both and to the local half, and
      the local half's parent. */
  lemma MergedDeviceIsBoth(cloud: Device, local: Device)
    requires cloud.advanced.Some? && local.advanced.Some?
    ensures var m := Merge(cloud, local);
            && (m.online <==> cloud.online || local.online)
            && m.id == cloud.id && m.location == cloud.location && m.room == cloud.room && m.name == cloud.name
            && m.kind == cloud.kind && m.controls == cloud.controls
            && m.healthUpdatedAt in {cloud.healthUpdatedAt, local.healthUpdatedAt}
            && (forall stamp :: stamp in {cloud.healthUpdatedAt, local.healthUpdatedAt} && stamp.instant.Some? ==>
                  m.healthUpdatedAt.instant.Some? && stamp.instant.value <= m.healthUpdatedAt.instant.value)
            && (local.healthUpdatedAt.instant.None?
                || local.healthUpdatedAt.instant == cloud.healthUpdatedAt.instant ==>
                  m.healthUpdatedAt == cloud.healthUpdatedAt)
            && m.advanced.Some?
            && (forall id :: id in m.advanced.value.linked <==>
                  id in cloud.advanced.value.linked || id in local.advanced.value.linked || id == local.id)
            && m.advanced.value.parent == local.advanced.value.parent
            && m.advanced.value.owner == cloud.advanced.value.owner
            && m.advanced.value.context == cloud.advanced.value.context
            && m.advanced.value.categories == cloud.advanced.value.categories
  {
  }

  /** Merging keeps the group a device belongs to. */
  lemma MergeKeepsKey(cloud: Device, local: Device)
    requires cloud.advanced.Some? && local.advanced.Some?
    ensures KeyOf(Merge(cloud, local)) == KeyOf(cloud) && Merge(cloud, local).id == cloud.id
  {
  }

  // ---------------------------------------------------------------------------
  // The outcome, said of the inventory as a whole
  // ---------------------------------------------------------------------------

  function Members(devices: Inventory, key: GroupKey): set<string> {
    set id | id in devices && KeyOf(devices[id]) == Some(key)
  }

  /** Two devices are the only ones of their group, and a mirrored pair. */
  predicate IsPair(devices: Inventory, cloud: string, local: string) {
    && cloud in devices && local in devices && cloud != local
    && KeyOf(devices[cloud]).Some? && Members(devices, KeyOf(devices[cloud]).value) == {cloud, local}
    && IsStrong(devices[cloud], devices[local])
  }

  type Pair = (string, string)

  /** All pairs, as (cloud, local). */
  function AllPairs(devices: Inventory): set<Pair> {
    set c, l | c in devices && l in devices && IsPair(devices, c, l) :: (c, l)
  }

  /** No device is in two pairs. */
  predicate Apart(pairs: set<Pair>) {
    forall p, q :: p in pairs && q in pairs ==> p.1 != q.0 && (p.1 == q.1 || p.0 == q.0 ==> p == q)
  }

  lemma SameGroupSamePair(devices: Inventory, c: string, l: string, d: string, m: string)
    requires IsPair(devices, c, l) && IsPair(devices, d, m) && (c == d || l == m)
    ensures c == d && l == m && KeyOf(devices[l]) == KeyOf(devices[c])
  {
    var key := KeyOf(devices[c]).value;
    assert l in Members(devices, key) && c in Members(devices, key);
    assert m in Members(devices, KeyOf(devices[d]).value) && d in Members(devices, KeyOf(devices[d]).value);
  }

  lemma PairsAreApart(devices: Inventory)
    ensures Apart(AllPairs(devices))
  {
    forall p, q | p in AllPairs(devices) && q in AllPairs(devices)
      ensures p.1 != q.0 && (p.1 == q.1 || p.0 == q.0 ==> p == q)
    {
      if p.1 == q.1 || p.0 == q.0 { SameGroupSamePair(devices, p.0, p.1, q.0, q.1); }
    }
  }

  predicate AreAliases(pairs: set<Pair>, aliases: map<string, string>) {
    && (forall l :: l in aliases ==> (aliases[l], l) in pairs)
    && (forall p :: p in pairs ==> p.1 in aliases)
  }

  predicate IsUnpaired(pairs: set<Pair>, id: string) { forall p :: p in pairs ==> p.0 != id }

  predicate IsSurvivor(devices: Inventory, pairs: set<Pair>, id: string, after: Device)
    requires id in devices
  {
    && (IsUnpaired(pairs, id) ==> after == devices[id])
    && (forall p :: p in pairs && p.0 == id ==> IsMergeOf(devices, p, after))
  }

  predicate IsMergeOf(devices: Inventory, p: Pair, after: Device) {
    p.0 in devices && p.1 in devices && devices[p.0].advanced.Some? && devices[p.1].advanced.Some?
    && after == Merge(devices[p.0], devices[p.1])
  }

  predicate AreSurvivors(devices: Inventory, pairs: set<Pair>, result: Inventory, aliases: map<string, string>) {
    && result.Keys == devices.Keys - aliases.Keys
    && forall id :: id in result ==> IsSurvivor(devices, pairs, id, result[id])
  }

  /** The outcome of canonicalization, said of the inventory as a whole. */
  predicate IsCanonical(devices: Inventory, result: Inventory, aliases: map<string, string>) {
    AreAliases(AllPairs(devices), aliases) && AreSurvivors(devices, AllPairs(devices), result, aliases)
  }

  // ---------------------------------------------------------------------------
  // Properties
  // ---------------------------------------------------------------------------

  /** Survivors and aliases split the device IDs between them, and every alias stands for a
      surviving device that is no alias itself. */
  lemma CanonicalPartitionsIds(devices: Inventory, result: Inventory, aliases: map<string, string>)
    requires IsCanonical(devices, result, aliases)
    ensures result.Keys !! aliases.Keys && result.Keys + aliases.Keys == devices.Keys
    ensures forall l :: l in aliases ==> aliases[l] in result && aliases[l] !in aliases
  {
    PairsAreApart(devices);
    Partition(devices, AllPairs(devices), result, aliases);
  }

  lemma Partition(devices: Inventory, pairs: set<Pair>, result: Inventory, aliases: map<string, string>)
    requires Apart(pairs) && AreAliases(pairs, aliases) && result.Keys == devices.Keys - aliases.Keys
    requires forall p :: p in pairs ==> p.0 in devices && p.1 in devices
    ensures result.Keys !! aliases.Keys && result.Keys + aliases.Keys == devices.Keys
    ensures forall l :: l in aliases ==> aliases[l] in result && aliases[l] !in aliases
  {
    forall l | l in aliases
      ensures l in devices && aliases[l] in result && aliases[l] !in aliases
    {
      assert (aliases[l], l) in pairs;
    }
  }

  /** Two devices with one owner that agree in location, room, name and type. */
  predicate InOneGroup(d: Device, e: Device) {
    && d.advanced.Some? && e.advanced.Some?
    && d.advanced.value.owner != "" && d.advanced.value.owner == e.advanced.value.owner
    && d.location == e.location && d.room == e.room && d.name == e.name && d.kind == e.kind
  }

  /** Some state of the main component has the attribute. */
  predicate ShowsMain(d: Device, attribute: string) {
    exists key :: key in d.states && d.states[key].isMain && d.states[key].attribute == attribute
  }

  /** A cloud device and a local one with a parent, alone in their group, both showing switch,
      level, hue and saturation, where the cloud device can do whatever the local one can. */
  predicate AreMirrors(devices: Inventory, c: string, l: string) {
    && c in devices && l in devices && c != l && InOneGroup(devices[c], devices[l])
    && (forall id :: id in devices && InOneGroup(devices[c], devices[id]) ==> id == c || id == l)
    && devices[c].advanced.value.context == Cloud && devices[l].advanced.value.context == Local
    && devices[l].advanced.value.parent != ""
    && (forall a :: a in {"switch", "level", "hue", "saturation"} ==>
        ShowsMain(devices[c], a) && ShowsMain(devices[l], a))
    && (forall x :: x in devices[l].controls ==> x in devices[c].controls)
  }

  lemma MirrorsArePair(devices: Inventory, c: string, l: string)
    ensures AreMirrors(devices, c, l) <==> IsPair(devices, c, l)
  {
    if c in devices && l in devices && KeyOf(devices[c]).Some? {
      var key := KeyOf(devices[c]).value;
      forall id | id in devices
        ensures id in Members(devices, key) <==> InOneGroup(devices[c], devices[id])
      {
      }
      StrongMeans(devices[c], devices[l]);
      assert c in Members(devices, key);
      assert Members(devices, key) == {c, l} ==> l in Members(devices, key);
    }
  }

  lemma StrongMeans(cloud: Device, local: Device)
    ensures IsStrong(cloud, local) <==>
            && cloud.advanced.Some? && local.advanced.Some?
            && cloud.advanced.value.context == Cloud && local.advanced.value.context == Local
            && local.advanced.value.parent != ""
            && (forall a :: a in {"switch", "level", "hue", "saturation"} ==>
                ShowsMain(cloud, a) && ShowsMain(local, a))
            && (forall x :: x in local.controls ==> x in cloud.controls)
  {
    forall a: string
      ensures a in Signature(cloud) <==> ShowsMain(cloud, a)
      ensures a in Signature(local) <==> ShowsMain(local, a)
    {
    }
    assert REQUIRED == {"switch", "level", "hue", "saturation"};
  }

  /** In terms of the devices: a device is hidden behind another exactly if the two are mirrors. */
  lemma AliasesAreMirrors(devices: Inventory, result: Inventory, aliases: map<string, string>, c: string, l: string)
    requires IsCanonical(devices, result, aliases)
    ensures l in aliases && aliases[l] == c <==> AreMirrors(devices, c, l)
  {
    MirrorsArePair(devices, c, l);
    PairsAreApart(devices);
    if AreMirrors(devices, c, l) {
      var p := (c, l);
      assert p in AllPairs(devices) && p.1 in aliases;
      assert (aliases[l], l) in AllPairs(devices);
    }
    if l in aliases && aliases[l] == c {
      assert (aliases[l], l) in AllPairs(devices);
    }
  }

  /** There is only one outcome, so the order in which devices and groups come up is irrelevant. */
  lemma OutcomeIsUnique(
    devices: Inventory, result: Inventory, aliases: map<string, string>,
    result': Inventory, aliases': map<string, string>)
    requires IsCanonical(devices, result, aliases) && IsCanonical(devices, result', aliases')
    ensures result == result' && aliases == aliases'
  {
    var pairs := AllPairs(devices);
    PairsAreApart(devices);
    AliasesAreUnique(pairs, aliases, aliases');
    forall id | id in result
      ensures id in result' && result[id] == result'[id]
    {
      SurvivorIsUnique(devices, pairs, id, result[id], result'[id]);
    }
  }

  lemma AliasesAreUnique(pairs: set<Pair>, aliases: map<string, string>, aliases': map<string, string>)
    requires Apart(pairs) && AreAliases(pairs, aliases) && AreAliases(pairs, aliases')
    ensures aliases == aliases'
  {
    forall l | l in aliases || l in aliases'
      ensures l in aliases && l in aliases' && aliases[l] == aliases'[l]
    {
      if l in aliases { assert (aliases[l], l).1 in aliases'; }
      if l in aliases' { assert (aliases'[l], l).1 in aliases; }
    }
  }

  lemma SurvivorIsUnique(devices: Inventory, pairs: set<Pair>, id: string, a: Device, b: Device)
    requires id in devices && IsSurvivor(devices, pairs, id, a) && IsSurvivor(devices, pairs, id, b)
    ensures a == b
  {
    if !IsUnpaired(pairs, id) {
      var p :| p in pairs && p.0 == id;
      assert IsMergeOf(devices, p, a) && IsMergeOf(devices, p, b);
    }
  }

  lemma SurvivorKeepsKey(devices: Inventory, pairs: set<Pair>, id: string, after: Device)
    requires id in devices && IsSurvivor(devices, pairs, id, after)
    ensures KeyOf(after) == KeyOf(devices[id])
  {
    if !IsUnpaired(pairs, id) {
      var p :| p in pairs && p.0 == id;
      assert IsMergeOf(devices, p, after);
      MergeKeepsKey(devices[p.0], devices[p.1]);
    }
  }

  lemma MembersAfter(devices: Inventory, result: Inventory, aliases: map<string, string>, key: GroupKey)
    requires IsCanonical(devices, result, aliases)
    ensures Members(result, key) == Members(devices, key) - aliases.Keys
  {
    forall id | id in result
      ensures KeyOf(result[id]) == KeyOf(devices[id])
    {
      SurvivorKeepsKey(devices, AllPairs(devices), id, result[id]);
    }
  }

  /** A group that contains a pair has one member left. */
  lemma PairLeavesOne(devices: Inventory, aliases: map<string, string>, key: GroupKey, p: Pair)
    requires AreAliases(AllPairs(devices), aliases) && p in AllPairs(devices)
    requires p.0 in Members(devices, key) || p.1 in Members(devices, key)
    ensures Members(devices, key) - aliases.Keys <= {p.0}
  {
    SameGroupSamePair(devices, p.0, p.1, p.0, p.1);
    assert Members(devices, key) == {p.0, p.1};
  }

  lemma TwoLeftHadNoPair(devices: Inventory, aliases: map<string, string>, key: GroupKey, a: string, b: string, p: Pair)
    requires AreAliases(AllPairs(devices), aliases) && p in AllPairs(devices)
    requires a != b && Members(devices, key) - aliases.Keys == {a, b}
    ensures p.0 !in Members(devices, key) && p.1 !in Members(devices, key)
  {
    assert a in {a, b} && b in {a, b};
    if p.0 in Members(devices, key) || p.1 in Members(devices, key) {
      PairLeavesOne(devices, aliases, key, p);
    }
  }

  lemma WithoutPairsNothingHidden(pairs: set<Pair>, aliases: map<string, string>, members: set<string>)
    requires AreAliases(pairs, aliases) && forall p :: p in pairs ==> p.0 !in members && p.1 !in members
    ensures members - aliases.Keys == members && forall id :: id in members ==> IsUnpaired(pairs, id)
  {
    forall id | id in aliases
      ensures id !in members
    {
      var p := (aliases[id], id);
      assert p in pairs;
    }
  }

  /** So a group with two members left never contained a pair, and was left alone. */
  lemma TwoLeftAreUntouched(devices: Inventory, result: Inventory, aliases: map<string, string>, key: GroupKey,
                            a: string, b: string)
    requires IsCanonical(devices, result, aliases) && a != b && Members(result, key) == {a, b}
    ensures Members(devices, key) == {a, b} && (a, b) !in AllPairs(devices)
    ensures IsUnpaired(AllPairs(devices), a) && IsUnpaired(AllPairs(devices), b)
  {
    var pairs, members := AllPairs(devices), Members(devices, key);
    MembersAfter(devices, result, aliases, key);
    forall p | p in pairs
      ensures p.0 !in members && p.1 !in members
    {
      TwoLeftHadNoPair(devices, aliases, key, a, b, p);
    }
    WithoutPairsNothingHidden(pairs, aliases, members);
    assert a in members && b in members;
    assert (a, b) in pairs ==> (a, b).0 !in members;
  }

  lemma NoPairRemains(devices: Inventory, result: Inventory, aliases: map<string, string>, cloud: string, local: string)
    requires IsCanonical(devices, result, aliases)
    ensures !IsPair(result, cloud, local)
  {
    if cloud in result && local in result && cloud != local && KeyOf(result[cloud]).Some?
       && Members(result, KeyOf(result[cloud]).value) == {cloud, local} {
      TwoLeftAreUntouched(devices, result, aliases, KeyOf(result[cloud]).value, cloud, local);
      assert result[cloud] == devices[cloud] && result[local] == devices[local];
    }
  }

  /** Canonicalizing again changes nothing and hides nothing. */
  lemma CanonicalIsIdempotent(
    devices: Inventory, result: Inventory, aliases: map<string, string>,
    again: Inventory, newAliases: map<string, string>)
    requires IsCanonical(devices, result, aliases) && IsCanonical(result, again, newAliases)
    ensures again == result && newAliases == map[]
  {
    forall c, l
      ensures !IsPair(result, c, l)
    {
      NoPairRemains(devices, result, aliases, c, l);
    }
    assert AllPairs(result) == {};
    NothingToPair(result, again, newAliases);
  }

  lemma NothingToPair(devices: Inventory, result: Inventory, aliases: map<string, string>)
    requires AreAliases({}, aliases) && AreSurvivors(devices, {}, result, aliases)
    ensures result == devices && aliases == map[]
  {
    assert forall l :: l !in aliases;
    forall id | id in result
      ensures result[id] == devices[id]
    {
      assert IsUnpaired({}, id);
    }
  }

  // ---------------------------------------------------------------------------
  // The loops of `canonicalize_duplicate_devices`
  // ---------------------------------------------------------------------------

  /** The devices of one group in the order they come up. */
  function GroupOf(devices: Inventory, order: seq<string>, key: GroupKey): seq<Device>
    requires forall i :: 0 <= i < |order| ==> order[i] in devices
  {
    if order == [] then []
    else
      var n := |order| - 1;
      GroupOf(devices, order[..n], key) + if KeyOf(devices[order[n]]) == Some(key) then [devices[order[n]]] else []
  }

  predicate IsOrder(devices: Inventory, order: seq<string>) {
    && (forall i :: 0 <= i < |order| ==> order[i] in devices)
    && (forall i, j :: 0 <= i < j < |order| ==> order[i] != order[j])
  }

  predicate DistinctIds(group: seq<Device>) { forall i, j :: 0 <= i < j < |group| ==> group[i].id != group[j].id }

  lemma {:induction false} GroupHoldsMembers(devices: Inventory, order: seq<string>, key: GroupKey)
    requires IsKeyed(devices) && IsOrder(devices, order)
    ensures DistinctIds(GroupOf(devices, order, key))
    ensures forall d :: d in GroupOf(devices, order, key) <==>
            d.id in order && d.id in devices && devices[d.id] == d && KeyOf(d) == Some(key)
  {
    if order != [] {
      var n := |order| - 1;
      var pre := order[..n];
      GroupHoldsMembers(devices, pre, key);
      assert order == pre + [order[n]];
    }
  }

  function FirstWith(group: seq<Device>, context: Context): (first: Option<Device>)
    ensures first.Some? ==> HasContext(first.value, context)
  {
    if group == [] then None
    else if HasContext(group[0], context) then Some(group[0])
    else FirstWith(group[1..], context)
  }

  /** `_strong_cloud_local_pair`. */
  function StrongCloudLocalPair(group: seq<Device>): Option<(Device, Device)> {
    if |group| != 2 then None
    else
      var cloud, local := FirstWith(group, Cloud), FirstWith(group, Local);
      if cloud == None || local == None then None
      else if local.value.advanced.value.parent == "" then None
      else if !(REQUIRED <= Signature(cloud.value) * Signature(local.value)) then None
      else if !(local.value.controls <= cloud.value.controls) then None
      else Some((cloud.value, local.value))
  }

  lemma FirstOfTwo(group: seq<Device>, context: Context)
    requires |group| == 2
    ensures FirstWith(group, context) ==
            if HasContext(group[0], context) then Some(group[0])
            else if HasContext(group[1], context) then Some(group[1]) else None
  {
    assert group[1..] == [group[1]] && group[1..][1..] == [];
    assert FirstWith(group[1..], context) == if HasContext(group[1], context) then Some(group[1]) else None;
  }

  /** Two devices pass exactly when they are strong one way round. */
  lemma StrongPairOfTwo(group: seq<Device>, cloud: Device, local: Device)
    requires |group| == 2
    ensures StrongCloudLocalPair(group) == Some((cloud, local)) <==>
            IsStrong(cloud, local)
              && ((cloud == group[0] && local == group[1]) || (cloud == group[1] && local == group[0]))
  {
    FirstOfTwo(group, Cloud);
    FirstOfTwo(group, Local);
  }

  lemma GroupSize(devices: Inventory, order: seq<string>, key: GroupKey)
    requires IsKeyed(devices) && IsOrder(devices, order)
    ensures |GroupOf(devices, order, key)| <= |Members(devices, key)|
  {
    var group := GroupOf(devices, order, key);
    GroupHoldsMembers(devices, order, key);
    forall i | 0 <= i < |group|
      ensures group[i].id in Members(devices, key)
    {
      assert group[i] in group;
    }
    DistinctIdsCount(group, Members(devices, key));
  }

  lemma TwoOfTwo(group: seq<Device>, a: Device, b: Device)
    requires a in group && b in group && a != b && |group| <= 2
    ensures group == [a, b] || group == [b, a]
  {
  }

  lemma GroupOfTwo(devices: Inventory, order: seq<string>, key: GroupKey, a: string, b: string)
    requires IsKeyed(devices) && IsOrder(devices, order) && (forall id :: id in devices ==> id in order)
    requires a != b && Members(devices, key) == {a, b}
    ensures a in devices && b in devices
    ensures GroupOf(devices, order, key) == [devices[a], devices[b]]
            || GroupOf(devices, order, key) == [devices[b], devices[a]]
  {
    assert a in Members(devices, key) && b in Members(devices, key);
    assert devices[a] in GroupOf(devices, order, key) && devices[b] in GroupOf(devices, order, key) by {
      GroupHoldsMembers(devices, order, key);
    }
    GroupSize(devices, order, key);
    assert |{a, b}| == 2;
    TwoOfTwo(GroupOf(devices, order, key), devices[a], devices[b]);
  }

  lemma {:induction false} DistinctIdsCount(group: seq<Device>, ids: set<string>)
    requires DistinctIds(group) && forall i :: 0 <= i < |group| ==> group[i].id in ids
    ensures |group| <= |ids|
  {
    if group != [] {
      var n := |group| - 1;
      DistinctIdsCount(group[..n], ids - {group[n].id});
    }
  }

  lemma TwoInGroup(devices: Inventory, order: seq<string>, key: GroupKey)
    requires IsKeyed(devices) && IsOrder(devices, order) && (forall id :: id in devices ==> id in order)
    requires |GroupOf(devices, order, key)| == 2
    ensures var group := GroupOf(devices, order, key);
            && Members(devices, key) == {group[0].id, group[1].id} && group[0].id != group[1].id
            && devices[group[0].id] == group[0] && devices[group[1].id] == group[1]
  {
    var group := GroupOf(devices, order, key);
    GroupHoldsMembers(devices, order, key);
    assert group[0] in group && group[1] in group;
    forall id | id in Members(devices, key)
      ensures id in {group[0].id, group[1].id}
    {
      assert devices[id] in group;
    }
  }

  /** The check on one group finds the pair of that group, if there is one. */
  lemma GroupCheckFindsPair(devices: Inventory, order: seq<string>, key: GroupKey, c: string, l: string)
    requires IsKeyed(devices) && IsOrder(devices, order) && (forall id :: id in devices ==> id in order)
    requires c in devices && l in devices
    ensures IsPair(devices, c, l) && KeyOf(devices[c]) == Some(key) <==>
            StrongCloudLocalPair(GroupOf(devices, order, key)) == Some((devices[c], devices[l]))
  {
    var group := GroupOf(devices, order, key);
    if |group| == 2 {
      TwoInGroup(devices, order, key);
      StrongPairOfTwo(group, devices[c], devices[l]);
      assert group[0].id in Members(devices, key) && group[1].id in Members(devices, key);
    }
    if c != l && Members(devices, key) == {c, l} {
      GroupOfTwo(devices, order, key, c, l);
      StrongPairOfTwo(group, devices[c], devices[l]);
    }
  }

  /** The pairs of the groups looked at. */
  function PairsIn(devices: Inventory, groups: set<GroupKey>): set<Pair> {
    set p | p in AllPairs(devices) && KeyOf(devices[p.0]).value in groups :: p
  }

  lemma PairsInAll(devices: Inventory, groups: set<GroupKey>)
    requires forall id :: id in devices && KeyOf(devices[id]).Some? ==> KeyOf(devices[id]).value in groups
    ensures PairsIn(devices, groups) == AllPairs(devices)
  {
  }

  /** A group without a pair adds nothing. */
  lemma NoPairInGroup(devices: Inventory, groups: set<GroupKey>, key: GroupKey)
    requires forall c, l :: c in devices && l in devices ==> !(IsPair(devices, c, l) && KeyOf(devices[c]) == Some(key))
    ensures PairsIn(devices, groups + {key}) == PairsIn(devices, groups)
  {
  }

  lemma OnePairInGroup(devices: Inventory, groups: set<GroupKey>, key: GroupKey, c: string, l: string)
    requires IsPair(devices, c, l) && KeyOf(devices[c]) == Some(key)
    ensures PairsIn(devices, groups + {key}) == PairsIn(devices, groups) + {(c, l)}
    ensures key !in groups ==> (c, l) !in PairsIn(devices, groups)
  {
    forall p | p in AllPairs(devices) && KeyOf(devices[p.0]) == Some(key)
      ensures p == (c, l)
    {
      SameGroup(devices, c, l, p.0, p.1);
    }
  }

  lemma SameGroup(devices: Inventory, c: string, l: string, d: string, m: string)
    requires IsPair(devices, c, l) && IsPair(devices, d, m) && KeyOf(devices[c]) == KeyOf(devices[d])
    ensures c == d && l == m
  {
    var members := Members(devices, KeyOf(devices[c]).value);
    assert members == {c, l} == {d, m};
    assert d in {c, l} && c in {d, m} && m in {c, l} && l in {d, m};
  }

  predicate IsClear(pairs: set<Pair>, c: string, l: string) {
    forall p :: p in pairs ==> p.0 != c && p.1 != l && p.1 != c && p.0 != l
  }

  lemma NewPairIsClear(pairs: set<Pair>, c: string, l: string)
    requires Apart(pairs + {(c, l)}) && (c, l) !in pairs
    ensures IsClear(pairs, c, l)
  {
    var all := pairs + {(c, l)};
    assert (c, l) in all;
    forall p | p in pairs
      ensures p.0 != c && p.1 != l && p.1 != c && p.0 != l
    {
      assert p in all;
    }
  }

  lemma TakeAlias(pairs: set<Pair>, c: string, l: string, aliases: map<string, string>)
    requires IsClear(pairs, c, l) && AreAliases(pairs, aliases)
    ensures AreAliases(pairs + {(c, l)}, aliases[l := c]) && c !in aliases
  {
    forall x | x in aliases
      ensures x != l && x != c && (aliases[x], x) in pairs
    {
      var p := (aliases[x], x);
      assert p in pairs;
    }
  }

  lemma TakeSurvivor(devices: Inventory, pairs: set<Pair>, c: string, l: string, id: string, after: Device)
    requires id in devices && IsSurvivor(devices, pairs, id, after) && id != c
    ensures IsSurvivor(devices, pairs + {(c, l)}, id, after)
  {
    var all := pairs + {(c, l)};
    if IsUnpaired(all, id) {
      assert forall p :: p in pairs ==> p in all;
      assert IsUnpaired(pairs, id);
    }
  }

  lemma TakeMerged(devices: Inventory, pairs: set<Pair>, c: string, l: string)
    requires IsClear(pairs, c, l) && IsPair(devices, c, l)
    ensures IsSurvivor(devices, pairs + {(c, l)}, c, Merge(devices[c], devices[l]))
  {
    var all := pairs + {(c, l)};
    assert IsMergeOf(devices, (c, l), Merge(devices[c], devices[l]));
    assert (c, l) in all && !IsUnpaired(all, c) by { assert (c, l).0 == c; }
  }

  lemma TakeKeys(devices: Inventory, c: string, l: string, result: Inventory, aliases: map<string, string>,
                 merged: Device)
    requires result.Keys == devices.Keys - aliases.Keys && c in devices && c != l && c !in aliases
    ensures (result[c := merged] - {l}).Keys == devices.Keys - aliases[l := c].Keys
  {
  }

  /** Taking one more pair into account. */
  lemma TakePair(devices: Inventory, pairs: set<Pair>, c: string, l: string, result: Inventory,
                 aliases: map<string, string>)
    requires Apart(pairs + {(c, l)}) && (c, l) !in pairs
    requires AreAliases(pairs, aliases) && AreSurvivors(devices, pairs, result, aliases)
    requires IsPair(devices, c, l)
    ensures AreAliases(pairs + {(c, l)}, aliases[l := c])
    ensures AreSurvivors(devices, pairs + {(c, l)}, result[c := Merge(devices[c], devices[l])] - {l}, aliases[l := c])
  {
    NewPairIsClear(pairs, c, l);
    TakeAlias(pairs, c, l, aliases);
    TakeMerged(devices, pairs, c, l);
    var after := result[c := Merge(devices[c], devices[l])] - {l};
    TakeKeys(devices, c, l, result, aliases, Merge(devices[c], devices[l]));
    forall id | id in after
      ensures IsSurvivor(devices, pairs + {(c, l)}, id, after[id])
    {
      if id != c {
        assert id in result && after[id] == result[id];
        TakeSurvivor(devices, pairs, c, l, id, after[id]);
      }
    }
  }

  /** The first loop: devices with an owner, by group. */
  method GroupDevices(devices: Inventory, order: seq<string>) returns (groups: map<GroupKey, seq<Device>>)
    requires IsOrder(devices, order)
    ensures forall key :: key in groups ==> groups[key] == GroupOf(devices, order, key)
    ensures forall i :: 0 <= i < |order| && KeyOf(devices[order[i]]).Some? ==>
              KeyOf(devices[order[i]]).value in groups.Keys
  {
    groups := map[];
    for i := 0 to |order|
      invariant forall key :: key in groups ==> groups[key] == GroupOf(devices, order[..i], key)
      invariant forall key :: key !in groups ==> GroupOf(devices, order[..i], key) == []
      invariant forall j :: 0 <= j < i && KeyOf(devices[order[j]]).Some? ==> KeyOf(devices[order[j]]).value in groups
    {
      var device := devices[order[i]];
      assert order[..i + 1][..i] == order[..i];
      if KeyOf(device).Some? {
        var key := KeyOf(device).value;
        groups := groups[key := (if key in groups then groups[key] else []) + [device]];
      }
    }
    assert order[..|order|] == order;
  }

  /** What the second loop has done once some groups have been looked at. */
  predicate IsPartway(devices: Inventory, done: set<GroupKey>, result: Inventory, aliases: map<string, string>) {
    AreAliases(PairsIn(devices, done), aliases) && AreSurvivors(devices, PairsIn(devices, done), result, aliases)
  }

  lemma TakePairOfGroup(devices: Inventory, done: set<GroupKey>, key: GroupKey, c: string, l: string,
                        result: Inventory, aliases: map<string, string>)
    requires IsPartway(devices, done, result, aliases) && key !in done
    requires IsPair(devices, c, l) && KeyOf(devices[c]) == Some(key)
    ensures IsPartway(devices, done + {key}, result[c := Merge(devices[c], devices[l])] - {l}, aliases[l := c])
  {
    PairsAreApart(devices);
    OnePairInGroup(devices, done, key, c, l);
    TakePair(devices, PairsIn(devices, done), c, l, result, aliases);
  }

  /** One turn of the second loop. */
  method CheckGroup(devices: Inventory, order: seq<string>, key: GroupKey, group: seq<Device>,
                    ghost done: set<GroupKey>,
                    before: Inventory, aliasesBefore: map<string, string>)
    returns (result: Inventory, aliases: map<string, string>)
    requires IsKeyed(devices) && IsOrder(devices, order) && (forall id :: id in devices ==> id in order)
    requires group == GroupOf(devices, order, key) && key !in done && IsPartway(devices, done, before, aliasesBefore)
    ensures IsPartway(devices, done + {key}, result, aliases)
  {
    result, aliases := before, aliasesBefore;
    var pair := StrongCloudLocalPair(group);
    if pair.Some? {
      var (cloud, local) := pair.value;
      FoundPair(devices, order, key, cloud, local);
      TakePairOfGroup(devices, done, key, cloud.id, local.id, result, aliases);
      var merged := MergePair(cloud, local);
      result := result[cloud.id := merged] - {local.id};
      aliases := aliases[local.id := cloud.id];
    } else {
      forall c, l | c in devices && l in devices
        ensures !(IsPair(devices, c, l) && KeyOf(devices[c]) == Some(key))
      {
        GroupCheckFindsPair(devices, order, key, c, l);
      }
      NoPairInGroup(devices, done, key);
    }
  }

  /** Both loops, over devices in any order. */
  method CanonicalizeDuplicateDevices(devices: Inventory, order: seq<string>)
    returns (result: Inventory, aliases: map<string, string>)
    requires IsKeyed(devices) && IsOrder(devices, order) && (forall id :: id in devices ==> id in order)
    ensures IsCanonical(devices, result, aliases)
  {
    var groups := GroupDevices(devices, order);
    result, aliases := devices, map[];
    var rest := groups.Keys;
    NothingLookedAt(devices, groups.Keys);
    while rest != {}
      invariant rest <= groups.Keys
      invariant IsPartway(devices, groups.Keys - rest, result, aliases)
      decreases |rest|
    {
      var key :| key in rest;
      result, aliases := CheckGroup(devices, order, key, groups[key], groups.Keys - rest, result, aliases);
      OneLessToLookAt(groups.Keys, rest, key);
      rest := rest - {key};
    }
    EveryGroupLookedAt(devices, order, groups.Keys - rest, result, aliases);
  }

  lemma OneLessToLookAt(keys: set<GroupKey>, rest: set<GroupKey>, key: GroupKey)
    requires rest <= keys && key in rest
    ensures keys - (rest - {key}) == (keys - rest) + {key}
  {
  }

  lemma NothingLookedAt(devices: Inventory, keys: set<GroupKey>)
    ensures IsPartway(devices, keys - keys, devices, map[])
  {
    assert keys - keys == {} && PairsIn(devices, {}) == {};
  }

  lemma EveryGroupLookedAt(devices: Inventory, order: seq<string>, keys: set<GroupKey>, result: Inventory,
                           aliases: map<string, string>)
    requires IsOrder(devices, order) && (forall id :: id in devices ==> id in order)
    requires forall i :: 0 <= i < |order| && KeyOf(devices[order[i]]).Some? ==> KeyOf(devices[order[i]]).value in keys
    requires IsPartway(devices, keys, result, aliases)
    ensures IsCanonical(devices, result, aliases)
  {
    forall id | id in devices && KeyOf(devices[id]).Some?
      ensures KeyOf(devices[id]).value in keys
    {
      var i :| 0 <= i < |order| && order[i] == id;
    }
    PairsInAll(devices, keys);
  }

  lemma FoundPair(devices: Inventory, order: seq<string>, key: GroupKey, cloud: Device, local: Device)
    requires IsKeyed(devices) && IsOrder(devices, order) && (forall id :: id in devices ==> id in order)
    requires StrongCloudLocalPair(GroupOf(devices, order, key)) == Some((cloud, local))
    ensures cloud.id in devices && local.id in devices && devices[cloud.id] == cloud && devices[local.id] == local
    ensures IsPair(devices, cloud.id, local.id) && KeyOf(cloud) == Some(key)
  {
    TwoInGroup(devices, order, key);
    var group := GroupOf(devices, order, key);
    StrongPairOfTwo(group, cloud, local);
    assert group[0].id in Members(devices, key) && group[1].id in Members(devices, key);
    GroupCheckFindsPair(devices, order, key, cloud.id, local.id);
  }
}
