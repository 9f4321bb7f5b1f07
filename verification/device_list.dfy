/** The discovered-device list of the home screen and the merge the scan
    callback applies to it: a device with a usable name and id is appended
    unless a device with the same id is already listed. */
module DeviceList {
  import opened BleTypes

  /** The scan callback's filter `device && device.name && device.id`. */
  predicate Discoverable(device: Option<Peripheral>)
  {
    device.Some? && Listable(device.value)
  }

  /** A peripheral that passes the filter once it is known to be present. */
  predicate Listable(p: Peripheral)
  {
    Truthy(p.name) && Truthy(p.id)
  }

  /** The set of ids occurring in a list. */
  function Ids(xs: seq<Peripheral>): set<Option<string>>
  {
    set i | 0 <= i < |xs| :: xs[i].id
  }

  /** No two entries share an id. */
  predicate NoDuplicateIds(xs: seq<Peripheral>)
  {
    forall i, j :: 0 <= i < j < |xs| ==> xs[i].id != xs[j].id
  }

  /** What the screen keeps in `devices`: only listable peripherals, each id once. */
  predicate WellFormed(xs: seq<Peripheral>)
  {
    && NoDuplicateIds(xs)
    && forall i :: 0 <= i < |xs| ==> Listable(xs[i])
  }

  /** `prevDevices.some((d) => d.id === id)`, scanning from the front. */
  function HasId(xs: seq<Peripheral>, id: Option<string>): (found: bool)
    ensures found <==> id in Ids(xs)
    ensures found <==> exists i :: 0 <= i < |xs| && xs[i].id == id
  {
    if xs == [] then false
    else if xs[0].id == id then
      assert xs[0].id in Ids(xs);
      true
    else
      var rest := HasId(xs[1..], id);
      assert forall i :: 0 <= i < |xs[1..]| ==> xs[1..][i] == xs[i + 1];
      assert Ids(xs) == {xs[0].id} + Ids(xs[1..]) by {
        forall x | x in Ids(xs) ensures x in {xs[0].id} + Ids(xs[1..]) {
          var i :| 0 <= i < |xs| && xs[i].id == x;
          if i > 0 { assert xs[1..][i - 1].id == x; }
        }
      }
      rest
  }

  /** The `setDevices` updater: keep the list when the id is already present,
      otherwise append the new device at the end. */
  function Merge(xs: seq<Peripheral>, d: Peripheral): (r: seq<Peripheral>)
    ensures |xs| <= |r| <= |xs| + 1
    ensures r[..|xs|] == xs
    ensures |r| == |xs| + 1 ==> r[|xs|] == d
    ensures d.id in Ids(r)
    ensures |r| == |xs| <==> d.id in Ids(xs)
    ensures NoDuplicateIds(xs) ==> NoDuplicateIds(r)
  {
    if HasId(xs, d.id) then xs
    else
      var r := xs + [d];
      assert r[|xs|].id == d.id;
      r
  }

  /** The whole discovery branch of the scan callback: filter, then merge. */
  function Discover(xs: seq<Peripheral>, device: Option<Peripheral>): (r: seq<Peripheral>)
    ensures !Discoverable(device) ==> r == xs
    ensures Discoverable(device) ==> device.value.id in Ids(r)
    ensures WellFormed(xs) ==> WellFormed(r)
    ensures xs <= r
  {
    if Discoverable(device) then Merge(xs, device.value) else xs
  }

  /** Merging is idempotent: delivering the same device twice leaves the list
      as delivering it once. */
  lemma MergeIdempotent(xs: seq<Peripheral>, d: Peripheral)
    ensures Merge(Merge(xs, d), d) == Merge(xs, d)
  {
  }

  /** A device whose id is already listed is ignored entirely, even if its
      other fields differ: the entry found first is the one kept. */
  lemma MergeKeepsExistingEntry(xs: seq<Peripheral>, d: Peripheral, i: nat)
    requires i < |xs| && xs[i].id == d.id
    ensures Merge(xs, d) == xs
  {
  }

  /** The ids after a merge are exactly the earlier ids plus the new one. */
  lemma MergeIds(xs: seq<Peripheral>, d: Peripheral)
    ensures Ids(Merge(xs, d)) == Ids(xs) + {d.id}
  {
    var r := Merge(xs, d);
    if |r| == |xs| + 1 {
      assert r == xs + [d];
      forall x | x in Ids(xs) ensures x in Ids(r) {
        var i :| 0 <= i < |xs| && xs[i].id == x;
        assert r[i] == xs[i];
      }
    }
  }

  /** Folding a sequence of scan reports into a list, one `Discover` at a time. */
  function DiscoverAll(xs: seq<Peripheral>, reports: seq<Option<Peripheral>>): (r: seq<Peripheral>)
    ensures xs <= r
    ensures WellFormed(xs) ==> WellFormed(r)
    decreases |reports|
  {
    if reports == [] then xs else DiscoverAll(Discover(xs, reports[0]), reports[1..])
  }

  /** The ids of the discoverable reports in a sequence of scan reports. */
  function ReportedIds(reports: seq<Option<Peripheral>>): set<Option<string>>
  {
    set i | 0 <= i < |reports| && Discoverable(reports[i]) :: reports[i].value.id
  }

  /** Independent description of the fold: the listed ids are the earlier ones
      together with the id of every discoverable report, and nothing else. */
  lemma {:induction false} DiscoverAllIds(xs: seq<Peripheral>, reports: seq<Option<Peripheral>>)
    ensures Ids(DiscoverAll(xs, reports)) == Ids(xs) + ReportedIds(reports)
    decreases |reports|
  {
    if reports != [] {
      var d := reports[0];
      var ys := Discover(xs, d);
      DiscoverAllIds(ys, reports[1..]);
      if Discoverable(d) { MergeIds(xs, d.value); }
      ReportedIdsCons(reports);
    }
  }

  /** Splitting off the first report splits the reported ids accordingly. */
  lemma ReportedIdsCons(reports: seq<Option<Peripheral>>)
    requires reports != []
    ensures ReportedIds(reports)
         == (if Discoverable(reports[0]) then {reports[0].value.id} else {}) + ReportedIds(reports[1..])
  {
    var head := if Discoverable(reports[0]) then {reports[0].value.id} else {};
    var tail := reports[1..];
    forall x | x in ReportedIds(reports) ensures x in head + ReportedIds(tail) {
      var i :| 0 <= i < |reports| && Discoverable(reports[i]) && reports[i].value.id == x;
      if i > 0 {
        assert tail[i - 1] == reports[i];
        assert x in ReportedIds(tail);
      }
    }
    forall x | x in ReportedIds(tail) ensures x in ReportedIds(reports) {
      var i :| 0 <= i < |tail| && Discoverable(tail[i]) && tail[i].value.id == x;
      assert reports[i + 1] == tail[i];
    }
    if Discoverable(reports[0]) {
      assert reports[0].value.id in ReportedIds(reports);
    }
  }
}
