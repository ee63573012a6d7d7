/** Controller claims: which device key each of the four players wants, and which
    connected device each of them gets. */
module Controllers {

  const PLAYERS: nat := 4

  datatype Device = Device(instance: int, key: string)

  // ---------------------------------------------------------------------
  // Resolving claims to devices
  // ---------------------------------------------------------------------

  /** How many of the players claim `key`. */
  function Wanted(desired: seq<string>, key: string): (n: nat) {
    if desired == [] then 0
    else Wanted(desired[..|desired| - 1], key) + if desired[|desired| - 1] == key then 1 else 0
  }

  /** The devices with this key, in connection order. */
  function Matching(devices: seq<Device>, key: string): (r: seq<Device>)
    ensures |r| <= |devices|
    ensures forall i :: 0 <= i < |r| ==> r[i].key == key
  {
    if devices == [] then []
    else
      var last := devices[|devices| - 1];
      Matching(devices[..|devices| - 1], key) + if last.key == key then [last] else []
  }

  /** How many earlier devices share the key of device `d`. */
  function DeviceRank(devices: seq<Device>, d: nat): (n: nat)
    requires d < |devices|
  {
    |Matching(devices[..d], devices[d].key)|
  }

  /** What player `p` gets: the device of its key left over by the earlier players with the same claim. */
  function ResolvedFor(desired: seq<string>, devices: seq<Device>, p: nat): (instance: int)
    requires p < |desired|
  {
    var matching, rank := Matching(devices, desired[p]), Wanted(desired[..p], desired[p]);
    if desired[p] == "" || rank >= |matching| then -1 else matching[rank].instance
  }

  /** The device that player `p` takes is the one of its key whose rank is the player's own. */
  predicate Takes(desired: seq<string>, devices: seq<Device>, p: nat, d: nat) {
    && p < |desired| && d < |devices| && desired[p] != "" && devices[d].key == desired[p]
    && DeviceRank(devices, d) == Wanted(desired[..p], desired[p])
  }

  lemma {:induction false} MatchingPrefix(devices: seq<Device>, d: nat, key: string)
    requires d <= |devices|
    ensures |Matching(devices[..d], key)| <= |Matching(devices, key)|
    ensures Matching(devices, key)[..|Matching(devices[..d], key)|] == Matching(devices[..d], key)
  {
    if d < |devices| {
      var front := devices[..|devices| - 1];
      assert front[..d] == devices[..d];
      MatchingPrefix(front, d, key);
    } else {
      assert devices[..d] == devices;
    }
  }

  /** Device `d` is the `DeviceRank`-th of its key. */
  lemma RankIsPosition(devices: seq<Device>, d: nat)
    requires d < |devices|
    ensures DeviceRank(devices, d) < |Matching(devices, devices[d].key)|
    ensures Matching(devices, devices[d].key)[DeviceRank(devices, d)] == devices[d]
  {
    var key := devices[d].key;
    assert devices[..d + 1][..d] == devices[..d];
    MatchingPrefix(devices, d + 1, key);
    var m := Matching(devices[..d + 1], key);
    assert m[DeviceRank(devices, d)] == devices[d];
    assert Matching(devices, key)[..|m|][DeviceRank(devices, d)] == devices[d];
  }

  /** Every position in the matching list is some device's rank. */
  lemma {:induction false} PositionIsRank(devices: seq<Device>, key: string, r: nat) returns (d: nat)
    requires r < |Matching(devices, key)|
    ensures d < |devices| && devices[d].key == key && DeviceRank(devices, d) == r
  {
    var front := devices[..|devices| - 1];
    if r < |Matching(front, key)| {
      d := PositionIsRank(front, key, r);
      assert front[..d] == devices[..d];
    } else {
      d := |devices| - 1;
    }
  }

  lemma {:induction false} WantedPrefix(desired: seq<string>, p: nat, q: nat, key: string)
    requires p <= q <= |desired|
    ensures Wanted(desired[..p], key) <= Wanted(desired[..q], key)
    ensures p < q && desired[p] == key ==> Wanted(desired[..p], key) < Wanted(desired[..q], key)
    decreases q
  {
    if p < q {
      assert desired[..q][..q - 1] == desired[..q - 1];
      WantedPrefix(desired, p, q - 1, key);
    }
  }

  /** No device serves two players. */
  lemma EachDeviceOnce(desired: seq<string>, devices: seq<Device>, p: nat, q: nat, d: nat)
    requires Takes(desired, devices, p, d) && Takes(desired, devices, q, d)
    ensures p == q
  {
    if p < q { WantedPrefix(desired, p, q, desired[p]); }
    if q < p { WantedPrefix(desired, q, p, desired[p]); }
  }

  /** A player gets an instance exactly from the device it takes, and -1 when there is none. */
  lemma ResolvedIsTaken(desired: seq<string>, devices: seq<Device>, p: nat)
    requires p < |desired|
    ensures forall d: nat :: Takes(desired, devices, p, d) ==> ResolvedFor(desired, devices, p) == devices[d].instance
    ensures (forall d: nat :: !Takes(desired, devices, p, d)) ==> ResolvedFor(desired, devices, p) == -1
  {
    forall d: nat | Takes(desired, devices, p, d) ensures ResolvedFor(desired, devices, p) == devices[d].instance {
      RankIsPosition(devices, d);
    }
    var rank := Wanted(desired[..p], desired[p]);
    if desired[p] != "" && rank < |Matching(devices, desired[p])| {
      var d := PositionIsRank(devices, desired[p], rank);
      assert Takes(desired, devices, p, d);
    }
  }

  lemma {:induction false} MatchingConcat(a: seq<Device>, b: seq<Device>, key: string)
    ensures Matching(a + b, key) == Matching(a, key) + Matching(b, key)
  {
    if b == [] {
      assert a + b == a;
    } else {
      assert (a + b)[..|a + b| - 1] == a + b[..|b| - 1];
      MatchingConcat(a, b[..|b| - 1], key);
    }
  }

  /** Connecting or disconnecting devices of one key changes nothing for players who want another. */
  lemma OtherKeysUnaffected(desired: seq<string>, before: seq<Device>, plugged: seq<Device>, after: seq<Device>, p: nat)
    requires p < |desired| && forall d :: 0 <= d < |plugged| ==> plugged[d].key != desired[p]
    ensures ResolvedFor(desired, before + plugged + after, p) == ResolvedFor(desired, before + after, p)
  {
    MatchingOther(plugged, desired[p]);
    MatchingConcat(before + plugged, after, desired[p]);
    MatchingConcat(before, plugged, desired[p]);
    MatchingConcat(before, after, desired[p]);
  }

  lemma {:induction false} MatchingOther(devices: seq<Device>, key: string)
    requires forall d :: 0 <= d < |devices| ==> devices[d].key != key
    ensures Matching(devices, key) == []
  {
    if devices != [] { MatchingOther(devices[..|devices| - 1], key); }
  }

  method Resolve(desired: seq<string>, devices: seq<Device>) returns (result: seq<int>)
    requires |desired| == PLAYERS
    ensures |result| == PLAYERS && forall p :: 0 <= p < PLAYERS ==> result[p] == ResolvedFor(desired, devices, p)
  {
    NothingSpent(desired, devices);
    result := [-1, -1, -1, -1];
    var used := new bool[|devices|](_ => false);
    for player := 0 to PLAYERS
      invariant |result| == PLAYERS
      invariant forall p :: 0 <= p < player ==> result[p] == ResolvedFor(desired, devices, p)
      invariant forall p :: player <= p < PLAYERS ==> result[p] == -1
      invariant forall d :: 0 <= d < |devices| ==> (used[d] <==> Spent(desired[..player], devices, d))
    {
      var device := PickDevice(desired, devices, used, player);
      SpentStep(desired, devices, player);
      ResolvedIsTaken(desired, devices, player);
      hide Spent, ResolvedFor, Takes, DeviceRank, Wanted, Matching;
      if device < |devices| {
        result := result[player := devices[device].instance];
        used[device] := true;
      }
    }
  }

  /** Device `d` has been taken by one of the first players. */
  predicate Spent(desired: seq<string>, devices: seq<Device>, d: nat)
    requires d < |devices|
  {
    devices[d].key != "" && DeviceRank(devices, d) < Wanted(desired, devices[d].key)
  }

  lemma NothingSpent(desired: seq<string>, devices: seq<Device>)
    ensures forall d :: 0 <= d < |devices| ==> !Spent(desired[..0], devices, d)
  {
  }

  lemma SpentStep(desired: seq<string>, devices: seq<Device>, p: nat)
    requires p < |desired|
    ensures forall d :: 0 <= d < |devices| ==>
      (Spent(desired[..p + 1], devices, d) <==> Spent(desired[..p], devices, d) || Takes(desired, devices, p, d))
  {
    assert desired[..p + 1][..p] == desired[..p];
  }

  /** The first unused device with the player's key, or the number of devices. */
  method PickDevice(desired: seq<string>, devices: seq<Device>, used: array<bool>, player: nat) returns (device: nat)
    requires player < |desired| && used.Length == |devices|
    requires forall d :: 0 <= d < |devices| ==> (used[d] <==> Spent(desired[..player], devices, d))
    ensures device <= |devices|
    ensures device < |devices| ==> Takes(desired, devices, player, device)
    ensures forall d :: 0 <= d < |devices| && Takes(desired, devices, player, d) ==> d == device
  {
    if desired[player] == "" {
      return |devices|;
    }
    var key := desired[player];
    device := 0;
    while device < |devices| && (used[device] || devices[device].key != key)
      invariant device <= |devices|
      invariant forall d :: 0 <= d < device ==> used[d] || devices[d].key != key
    {
      device := device + 1;
    }
    if device < |devices| { FirstUnused(desired, devices, player, device); }
    forall d | 0 <= d < |devices| && Takes(desired, devices, player, d) ensures d == device {
      if device < |devices| { SameRankSameDevice(devices, d, device); }
    }
  }

  lemma SameRankSameDevice(devices: seq<Device>, a: nat, b: nat)
    requires a < |devices| && b < |devices| && devices[a].key == devices[b].key
    ensures DeviceRank(devices, a) == DeviceRank(devices, b) ==> a == b
    ensures a < b ==> DeviceRank(devices, a) < DeviceRank(devices, b)
    ensures b < a ==> DeviceRank(devices, b) < DeviceRank(devices, a)
  {
    RankGrows(devices, a, b);
    RankGrows(devices, b, a);
  }

  lemma RankGrows(devices: seq<Device>, a: nat, b: nat)
    requires a < |devices| && b < |devices| && devices[a].key == devices[b].key
    ensures a < b ==> DeviceRank(devices, a) < DeviceRank(devices, b)
  {
    if a < b {
      var front := devices[..b];
      assert front[..a] == devices[..a] && front[a] == devices[a];
      RankIsPosition(front, a);
    }
  }

  lemma PrefixRank(devices: seq<Device>, n: nat, d: nat)
    requires d < n <= |devices|
    ensures DeviceRank(devices[..n], d) == DeviceRank(devices, d)
  {
    assert devices[..n][..d] == devices[..d];
  }

  lemma FirstUnused(desired: seq<string>, devices: seq<Device>, player: nat, device: nat)
    requires player < |desired| && device < |devices| && desired[player] != "" && devices[device].key == desired[player]
    requires !Spent(desired[..player], devices, device)
    requires forall d :: 0 <= d < device && devices[d].key == desired[player] ==> Spent(desired[..player], devices, d)
    ensures Takes(desired, devices, player, device)
  {
    var rank := Wanted(desired[..player], desired[player]);
    if DeviceRank(devices, device) > rank {
      var d := PositionIsRank(devices[..device], desired[player], rank);
      PrefixRank(devices, device, d);
    }
  }

  // ---------------------------------------------------------------------
  // Changing claims
  // ---------------------------------------------------------------------

  /** No key is claimed twice. */
  predicate Distinct(desired: seq<string>) {
    forall p, q :: 0 <= p < q < |desired| && desired[p] != "" ==> desired[p] != desired[q]
  }

  /** `std::find`: the first position of a key, or the length. */
  function Find(desired: seq<string>, key: string): (i: nat)
    ensures i <= |desired|
    ensures i < |desired| ==> desired[i] == key
    ensures forall j :: 0 <= j < i ==> desired[j] != key
  {
    if desired == [] || desired[0] == key then 0
    else
      assert forall j :: 1 <= j < |desired| ==> desired[j] == desired[1..][j - 1];
      1 + Find(desired[1..], key)
  }

  method FindKey(desired: array<string>, key: string) returns (i: nat)
    ensures i == Find(desired[..], key)
  {
    i := 0;
    while i < desired.Length && desired[i] != key
      invariant i <= desired.Length && forall j :: 0 <= j < i ==> desired[..][j] != key
    {
      i := i + 1;
    }
  }

  datatype Op = Claim(player: nat, key: string) | Clear(player: nat) | Populate(devices: seq<Device>)

  /** A claim takes the key; a previous owner gets what the claimer had. */
  function Claimed(desired: seq<string>, player: nat, key: string): (r: seq<string>)
    requires |desired| == PLAYERS
    ensures |r| == PLAYERS
  {
    if player >= PLAYERS || key == "" then desired
    else
      var owner := Find(desired, key);
      if owner < |desired| && owner != player then desired[owner := desired[player]][player := key]
      else desired[player := key]
  }

  function Cleared(desired: seq<string>, player: nat): (r: seq<string>)
    requires |desired| == PLAYERS
    ensures |r| == PLAYERS
  {
    if player >= PLAYERS then desired else desired[player := ""]
  }

  /** The claims after offering every device in turn to the first player without one. */
  function Populated(desired: seq<string>, devices: seq<Device>): (r: seq<string>)
    requires |desired| == PLAYERS
    ensures |r| == PLAYERS
    decreases |devices|
  {
    if devices == [] then desired
    else
      var key := devices[0].key;
      if key == "" || key in desired then Populated(desired, devices[1..])
      else if Find(desired, "") == |desired| then desired
      else Populated(desired[Find(desired, "") := key], devices[1..])
  }

  method ClaimFor(desired: array<string>, player: nat, key: string) returns (ok: bool)
    requires desired.Length == PLAYERS
    modifies desired
    ensures ok == (player < PLAYERS && key != "") && desired[..] == Claimed(old(desired[..]), player, key)
  {
    if player >= PLAYERS || key == "" {
      return false;
    }
    var previous := desired[player];
    var owner := FindKey(desired, key);
    if owner < desired.Length && owner != player {
      desired[owner] := previous;
    }
    desired[player] := key;
    return true;
  }

  method ClearFor(desired: array<string>, player: nat) returns (ok: bool)
    requires desired.Length == PLAYERS
    modifies desired
    ensures ok == (player < PLAYERS) && desired[..] == Cleared(old(desired[..]), player)
  {
    if player >= PLAYERS {
      return false;
    }
    desired[player] := "";
    return true;
  }

  method PopulateAutomaticClaims(desired: array<string>, devices: seq<Device>)
    requires desired.Length == PLAYERS
    modifies desired
    ensures desired[..] == Populated(old(desired[..]), devices)
  {
    for d := 0 to |devices|
      invariant Populated(desired[..], devices[d..]) == Populated(old(desired[..]), devices)
    {
      var key := devices[d].key;
      assert devices[d..][1..] == devices[d + 1..];
      var present := FindKey(desired, key);
      if key == "" || present != desired.Length {
        continue;
      }
      var empty := FindKey(desired, "");
      if empty == desired.Length {
        break;
      }
      desired[empty] := key;
    }
  }

  function Step(desired: seq<string>, op: Op): (r: seq<string>)
    requires |desired| == PLAYERS
    ensures |r| == PLAYERS
  {
    match op
    case Claim(player, key) => Claimed(desired, player, key)
    case Clear(player) => Cleared(desired, player)
    case Populate(devices) => Populated(desired, devices)
  }

  function Run(desired: seq<string>, ops: seq<Op>): (r: seq<string>)
    requires |desired| == PLAYERS
    ensures |r| == PLAYERS
    decreases |ops|
  {
    if ops == [] then desired else Run(Step(desired, ops[0]), ops[1..])
  }

  lemma {:induction false} PopulateKeeps(desired: seq<string>, devices: seq<Device>)
    requires |desired| == PLAYERS && Distinct(desired)
    ensures Distinct(Populated(desired, devices))
    ensures forall q :: 0 <= q < PLAYERS && desired[q] != "" ==> Populated(desired, devices)[q] == desired[q]
    decreases |devices|
  {
    if devices != [] {
      var key := devices[0].key;
      if key == "" || key in desired {
        PopulateKeeps(desired, devices[1..]);
      } else if Find(desired, "") < |desired| {
        PopulateKeeps(desired[Find(desired, "") := key], devices[1..]);
      }
    }
  }

  /** The first device with this key, or the number of devices. */
  function FirstDevice(devices: seq<Device>, key: string): (d: nat)
    ensures d <= |devices|
    ensures d < |devices| ==> devices[d].key == key
    ensures forall e :: 0 <= e < d ==> devices[e].key != key
  {
    if devices == [] || devices[0].key == key then 0
    else
      assert forall e :: 1 <= e < |devices| ==> devices[e] == devices[1..][e - 1];
      1 + FirstDevice(devices[1..], key)
  }

  /** Player `q` had no claim and has one now. */
  predicate Filled(before: seq<string>, after: seq<string>, q: nat)
    requires |before| == |after| == PLAYERS
  {
    q < PLAYERS && before[q] == "" && after[q] != ""
  }

  /** A new claim is the key of a device, and one that nobody claimed before. */
  predicate FilledWell(before: seq<string>, after: seq<string>, devices: seq<Device>)
    requires |before| == |after| == PLAYERS
  {
    forall q :: 0 <= q < PLAYERS ==>
      if Filled(before, after, q) then after[q] !in before && FirstDevice(devices, after[q]) < |devices|
      else after[q] == before[q]
  }

  /** No device is left over while a player has no claim. */
  predicate AllOffered(after: seq<string>, devices: seq<Device>) {
    "" in after ==> forall d :: 0 <= d < |devices| && devices[d].key != "" ==> devices[d].key in after
  }

  /** Players are filled from the first on, with keys in the order of their first devices. */
  predicate FilledInOrder(before: seq<string>, after: seq<string>, devices: seq<Device>)
    requires |before| == |after| == PLAYERS
  {
    forall p, q :: 0 <= p < q < PLAYERS && before[p] == "" && Filled(before, after, q) ==>
      Filled(before, after, p) && FirstDevice(devices, after[p]) < FirstDevice(devices, after[q])
  }

  lemma FirstDeviceLater(devices: seq<Device>, key: string)
    requires devices != [] && devices[0].key != key
    ensures FirstDevice(devices, key) == 1 + FirstDevice(devices[1..], key)
  {
  }

  /** What populating does, without saying how. */
  lemma {:induction false} PopulatedExactly(desired: seq<string>, devices: seq<Device>)
    requires |desired| == PLAYERS
    ensures var r := Populated(desired, devices);
            FilledWell(desired, r, devices) && AllOffered(r, devices) && FilledInOrder(desired, r, devices)
    decreases |devices|
  {
    if devices != [] {
      hide Populated;
      var key, rest := devices[0].key, devices[1..];
      PopulatedHead(desired, devices);
      if key == "" || key in desired {
        PopulatedExactly(desired, rest);
        SkippedDevice(desired, Populated(desired, rest), devices);
      } else if Find(desired, "") < PLAYERS {
        PopulatedExactly(desired[Find(desired, "") := key], rest);
        PlacedDevice(desired, Populated(desired[Find(desired, "") := key], rest), devices);
      }
    }
  }

  lemma PopulatedHead(desired: seq<string>, devices: seq<Device>)
    requires |desired| == PLAYERS && devices != []
    ensures var key := devices[0].key;
            Populated(desired, devices)
            == if key == "" || key in desired then Populated(desired, devices[1..])
               else if Find(desired, "") == PLAYERS then desired
               else Populated(desired[Find(desired, "") := key], devices[1..])
  {
  }

  lemma SkippedDevice(desired: seq<string>, r: seq<string>, devices: seq<Device>)
    requires |desired| == |r| == PLAYERS && devices != [] && (devices[0].key == "" || devices[0].key in desired)
    requires FilledWell(desired, r, devices[1..]) && AllOffered(r, devices[1..])
    requires FilledInOrder(desired, r, devices[1..])
    ensures FilledWell(desired, r, devices) && AllOffered(r, devices) && FilledInOrder(desired, r, devices)
  {
    hide FirstDevice;
    forall q | 0 <= q < PLAYERS && Filled(desired, r, q)
      ensures FirstDevice(devices, r[q]) == 1 + FirstDevice(devices[1..], r[q])
    {
      FirstDeviceLater(devices, r[q]);
    }
    if devices[0].key in desired && devices[0].key != "" {
      var p :| 0 <= p < PLAYERS && desired[p] == devices[0].key;
      assert r[p] == desired[p];
    }
    forall d | 0 <= d < |devices| && devices[d].key != "" && "" in r ensures devices[d].key in r {
      if d > 0 { assert devices[d] == devices[1..][d - 1]; }
    }
  }

  lemma PlacedDevice(desired: seq<string>, r: seq<string>, devices: seq<Device>)
    requires |desired| == |r| == PLAYERS && devices != [] && devices[0].key != "" && devices[0].key !in desired
    requires Find(desired, "") < PLAYERS
    requires var placed := desired[Find(desired, "") := devices[0].key];
             FilledWell(placed, r, devices[1..]) && AllOffered(r, devices[1..])
             && FilledInOrder(placed, r, devices[1..])
    ensures FilledWell(desired, r, devices) && AllOffered(r, devices) && FilledInOrder(desired, r, devices)
  {
    var empty, key := Find(desired, ""), devices[0].key;
    var placed := desired[empty := key];
    hide Find;
    assert r[empty] == key && placed[empty] == key;
    assert FirstDevice(devices, key) == 0;
    forall q | 0 <= q < PLAYERS && Filled(placed, r, q)
      ensures Filled(desired, r, q) && FirstDevice(devices, r[q]) == 1 + FirstDevice(devices[1..], r[q])
    {
      FirstDeviceLater(devices, r[q]);
    }
    hide FirstDevice;
    assert forall q :: 0 <= q < PLAYERS && q != empty ==> (Filled(desired, r, q) <==> Filled(placed, r, q));
    assert forall p :: 0 <= p < PLAYERS && desired[p] != "" ==> placed[p] == desired[p];
    forall d | 0 <= d < |devices| && devices[d].key != "" && "" in r ensures devices[d].key in r {
      if d > 0 { assert devices[d] == devices[1..][d - 1]; } else { assert r[empty] == key; }
    }
  }

  /** A clear empties the player's own claim and touches nobody else's; it and a claim are refused for an unknown
      player, and a claim for an empty key. */
  lemma RefusedOrOwn(desired: seq<string>, player: nat, key: string)
    requires |desired| == PLAYERS
    ensures player >= PLAYERS ==> Cleared(desired, player) == desired
    ensures player >= PLAYERS || key == "" ==> Claimed(desired, player, key) == desired
    ensures player < PLAYERS ==>
      Cleared(desired, player)[player] == ""
      && forall q :: 0 <= q < PLAYERS && q != player ==> Cleared(desired, player)[q] == desired[q]
  {
  }

  lemma {:induction false} RunKeepsDistinct(desired: seq<string>, ops: seq<Op>)
    requires |desired| == PLAYERS && Distinct(desired)
    ensures Distinct(Run(desired, ops))
    decreases |ops|
  {
    hide Step, Distinct;
    if ops != [] {
      StepKeepsDistinct(desired, ops[0]);
      RunKeepsDistinct(Step(desired, ops[0]), ops[1..]);
    }
  }

  lemma StepKeepsDistinct(desired: seq<string>, op: Op)
    requires |desired| == PLAYERS && Distinct(desired)
    ensures Distinct(Step(desired, op))
  {
    if op.Populate? { PopulateKeeps(desired, op.devices); }
  }

  /** A claim reaches another player only by the swap: whoever held the key gets the claimer's old claim. */
  lemma ClaimTouchesOwnerOnly(desired: seq<string>, player: nat, key: string, q: nat)
    requires |desired| == PLAYERS && Distinct(desired) && player < PLAYERS && key != "" && q < PLAYERS && q != player
    ensures Claimed(desired, player, key)[player] == key
    ensures Claimed(desired, player, key)[q] == if desired[q] == key then desired[player] else desired[q]
  {
  }

  /** The operations that may change what player `q`, who claims `key`, claims. */
  predicate Concerns(op: Op, q: nat, key: string) {
    match op
    case Claim(player, wanted) => player == q || wanted == key
    case Clear(player) => player == q
    case Populate(_) => false
  }

  lemma StepSpares(desired: seq<string>, op: Op, q: nat)
    requires |desired| == PLAYERS && Distinct(desired) && q < PLAYERS && desired[q] != ""
    requires !Concerns(op, q, desired[q])
    ensures Distinct(Step(desired, op)) && Step(desired, op)[q] == desired[q]
  {
    StepKeepsDistinct(desired, op);
    hide Distinct, Populated;
    match op
    case Claim(player, key) => if player < PLAYERS && key != "" { ClaimTouchesOwnerOnly(desired, player, key, q); }
    case Clear(player) =>
    case Populate(devices) => PopulateKeeps(desired, devices);
  }

  /** Over any run, a player loses a claim only to its own claim or clear, or to somebody who claims that very key. */
  lemma {:induction false} RunSparesOthers(desired: seq<string>, ops: seq<Op>, q: nat)
    requires |desired| == PLAYERS && Distinct(desired) && q < PLAYERS && desired[q] != ""
    requires forall i :: 0 <= i < |ops| ==> !Concerns(ops[i], q, desired[q])
    ensures Run(desired, ops)[q] == desired[q]
    decreases |ops|
  {
    hide Step, Concerns;
    if ops != [] {
      StepSpares(desired, ops[0], q);
      RunSparesOthers(Step(desired, ops[0]), ops[1..], q);
    }
  }

  /** With distinct claims, each device key serves at most one player: every claim resolves to its first device. */
  lemma DistinctClaimsGetFirstDevice(desired: seq<string>, devices: seq<Device>, p: nat)
    requires Distinct(desired) && p < |desired| && desired[p] != ""
    ensures ResolvedFor(desired, devices, p)
         == if Matching(devices, desired[p]) == [] then -1 else Matching(devices, desired[p])[0].instance
  {
    NotWantedBefore(desired, p, p);
  }

  lemma {:induction false} NotWantedBefore(desired: seq<string>, p: nat, k: nat)
    requires Distinct(desired) && p < |desired| && desired[p] != "" && k <= p
    ensures Wanted(desired[..k], desired[p]) == 0
  {
    if k > 0 {
      assert desired[..k][..k - 1] == desired[..k - 1];
      NotWantedBefore(desired, p, k - 1);
    }
  }
}
