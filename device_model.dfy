/**
 * The partition page's list of disks: opaque device references kept sorted by
 * their device node, with in-place replacement and bounds-checked lookup.
 */
module PartitionDevices {

  /** QString's operator<: lexicographic by character code, a proper prefix
      being smaller. */
  predicate StrLess(a: string, b: string)
    decreases |a|
  {
    if |b| == 0 then false
    else if |a| == 0 then true
    else if a[0] != b[0] then a[0] < b[0]
    else StrLess(a[1..], b[1..])
  }

  lemma {:induction false} StrLessIrreflexive(a: string)
    ensures !StrLess(a, a)
    decreases |a|
  {
    if |a| > 0 {
      StrLessIrreflexive(a[1..]);
    }
  }

  lemma {:induction false} StrLessTransitive(a: string, b: string, c: string)
    requires StrLess(a, b) && StrLess(b, c)
    ensures StrLess(a, c)
    decreases |a|
  {
    if |a| > 0 && a[0] == b[0] && b[0] == c[0] {
      StrLessTransitive(a[1..], b[1..], c[1..]);
    }
  }

  lemma {:induction false} StrLessTotal(a: string, b: string)
    ensures StrLess(a, b) || a == b || StrLess(b, a)
    decreases |a|
  {
    if |a| > 0 && |b| > 0 && a[0] == b[0] {
      StrLessTotal(a[1..], b[1..]);
      assert a == [a[0]] + a[1..] && b == [b[0]] + b[1..];
    }
  }

  lemma StrLessAsymmetric(a: string, b: string)
    requires StrLess(a, b)
    ensures !StrLess(b, a)
  {
    if StrLess(b, a) {
      StrLessTransitive(a, b, a);
      StrLessIrreflexive(a);
    }
  }

  /** A block device as the partitioning library describes it. The model only
      reads these properties, so they are constants of the reference. */
  class Device {
    const name: string
    const deviceNode: string
    const logicalSize: int
    const totalLogical: int
    const capacity: int

    constructor (name: string, deviceNode: string, logicalSize: int, totalLogical: int, capacity: int)
      ensures this.name == name && this.deviceNode == deviceNode
      ensures this.logicalSize == logicalSize && this.totalLogical == totalLogical
      ensures this.capacity == capacity
    {
      this.name := name;
      this.deviceNode := deviceNode;
      this.logicalSize := logicalSize;
      this.totalLogical := totalLogical;
      this.capacity := capacity;
    }
  }

  /** Ordered by device node; devices with equal nodes may come in any order. */
  predicate NodeSorted(l: seq<Device>) {
    forall i, j :: 0 <= i < j < |l| ==> !StrLess(l[j].deviceNode, l[i].deviceNode)
  }

  /** Places `d` before the first device whose node is greater than its own. */
  method InsertByNode(l: seq<Device>, d: Device) returns (r: seq<Device>)
    requires NodeSorted(l)
    ensures NodeSorted(r)
    ensures multiset(r) == multiset(l) + multiset{d}
  {
    var k := 0;
    while k < |l| && !StrLess(d.deviceNode, l[k].deviceNode)
      invariant 0 <= k <= |l|
      invariant forall j :: 0 <= j < k ==> !StrLess(d.deviceNode, l[j].deviceNode)
    {
      k := k + 1;
    }
    r := l[..k] + [d] + l[k..];
    assert l == l[..k] + l[k..];
    InsertedSorted(l, d, k);
  }

  /** Inserting `d` after every device it does not precede and before the
      first one it does keeps the list in node order. */
  lemma InsertedSorted(l: seq<Device>, d: Device, k: int)
    requires NodeSorted(l) && 0 <= k <= |l|
    requires forall j :: 0 <= j < k ==> !StrLess(d.deviceNode, l[j].deviceNode)
    requires k < |l| ==> StrLess(d.deviceNode, l[k].deviceNode)
    ensures NodeSorted(l[..k] + [d] + l[k..])
  {
    var r := l[..k] + [d] + l[k..];
    forall i, j | 0 <= i < j < |r| ensures !StrLess(r[j].deviceNode, r[i].deviceNode) {
      if j == k {
        assert r[i] == l[i];
      } else if i == k {
        NodeAfterInsert(l, d, k, j - 1);
      }
    }
  }

  /** A device after the insertion point does not precede `d`. */
  lemma NodeAfterInsert(l: seq<Device>, d: Device, k: int, j: int)
    requires NodeSorted(l) && 0 <= k <= j < |l|
    requires StrLess(d.deviceNode, l[k].deviceNode)
    ensures !StrLess(l[j].deviceNode, d.deviceNode)
  {
    if StrLess(l[j].deviceNode, d.deviceNode) {
      if j > k {
        StrLessTransitive(l[j].deviceNode, d.deviceNode, l[k].deviceNode);
      } else {
        StrLessAsymmetric(d.deviceNode, l[k].deviceNode);
      }
    }
  }

  /** sortDevices: std::sort by device node, so a permutation of the input in
      node order (std::sort is not stable). */
  method SortDevices(l: seq<Device>) returns (r: seq<Device>)
    ensures NodeSorted(r)
    ensures multiset(r) == multiset(l)
  {
    r := [];
    var i := 0;
    while i < |l|
      invariant 0 <= i <= |l|
      invariant NodeSorted(r)
      invariant multiset(r) == multiset(l[..i])
    {
      r := InsertByNode(r, l[i]);
      assert l[..i + 1] == l[..i] + [l[i]];
      i := i + 1;
    }
    assert l[..i] == l;
  }

  /** QList::removeAll: every occurrence of `d` goes, every other element stays
      as often as it was. */
  function RemoveAll(l: seq<Device>, d: Device): (r: seq<Device>)
    ensures d !in r
    ensures multiset(r) == multiset(l)[d := 0]
    decreases |l|
  {
    if l == [] then []
    else
      var rest := RemoveAll(l[1..], d);
      assert l == [l[0]] + l[1..];
      if l[0] == d then rest else [l[0]] + rest
  }

  /** QList::indexOf: the first index holding `d`, or -1. */
  function IndexOf(l: seq<Device>, d: Device): (i: int)
    ensures -1 <= i < |l|
    ensures i == -1 <==> d !in l
    ensures i >= 0 ==> l[i] == d && forall j :: 0 <= j < i ==> l[j] != d
    decreases |l|
  {
    if l == [] then -1
    else if l[0] == d then 0
    else
      var i := IndexOf(l[1..], d);
      if i == -1 then -1 else i + 1
  }

  /** A cell value: nothing, a text, or the disk pixmap. */
  datatype Variant = Invalid | Text(text: string) | Pixmap

  // Qt::ItemDataRole values used by the list.
  const DisplayRole: int := 0
  const DecorationRole: int := 1
  const ToolTipRole: int := 3

  /** The display and tool-tip text: the device node for an unnamed device;
      otherwise "name - size (node)", leaving the size out when the logical
      size or total is negative (a new volume group has no capacity yet). */
  function DisplayText(d: Device, formatByteSize: int -> string): (r: string)
    ensures d.name == "" ==> r == d.deviceNode
    ensures d.name != "" ==>
      && |r| >= |d.name| + |d.deviceNode| + 5
      && r[..|d.name| + 3] == d.name + " - "
      && r[|r| - |d.deviceNode| - 2..] == "(" + d.deviceNode + ")"
    ensures d.name != "" && (d.logicalSize < 0 || d.totalLogical < 0) ==>
      r == d.name + " - (" + d.deviceNode + ")"
    ensures d.name != "" && d.logicalSize >= 0 && d.totalLogical >= 0 ==>
      r == d.name + " - " + formatByteSize(d.capacity) + " (" + d.deviceNode + ")"
  {
    if d.name == "" then d.deviceNode
    else if d.logicalSize >= 0 && d.totalLogical >= 0 then
      d.name + " - " + formatByteSize(d.capacity) + " (" + d.deviceNode + ")"
    else
      d.name + " - (" + d.deviceNode + ")"
  }

  class DeviceModel {
    var devices: seq<Device>

    constructor ()
      ensures devices == []
    {
      devices := [];
    }

    /** init: the list becomes the given devices in node order. */
    method Init(ds: seq<Device>)
      modifies this
      ensures NodeSorted(devices)
      ensures multiset(devices) == multiset(ds)
    {
      devices := SortDevices(ds);
    }

    /** rowCount: a flat list, so no rows under a valid parent. */
    function RowCount(parentValid: bool): (r: int)
      reads this
      ensures parentValid ==> r == 0
      ensures !parentValid ==> r == |devices|
    {
      if parentValid then 0 else |devices|
    }

    /** deviceForIndex: null outside the rows, otherwise that row's device. */
    function DeviceForIndex(row: int): (d: Device?)
      reads this
      ensures d != null <==> 0 <= row < |devices|
      ensures d != null ==> d == devices[row]
    {
      if row < 0 || row >= |devices| then null else devices[row]
    }

    /** data: nothing outside the rows; the display text for the display and
        tool-tip roles, the disk pixmap for the decoration role, and nothing
        for any other role. */
    function Data(row: int, role: int, formatByteSize: int -> string): (v: Variant)
      reads this
      ensures (row < 0 || row >= RowCount(false)) ==> v == Invalid
      ensures 0 <= row < |devices| && (role == DisplayRole || role == ToolTipRole) ==>
        v == Text(DisplayText(devices[row], formatByteSize))
      ensures 0 <= row < |devices| && role == DecorationRole ==> v == Pixmap
      ensures role !in {DisplayRole, ToolTipRole, DecorationRole} ==> v == Invalid
    {
      if row < 0 || row >= |devices| then Invalid
      else if role == DisplayRole || role == ToolTipRole then Text(DisplayText(devices[row], formatByteSize))
      else if role == DecorationRole then Pixmap
      else Invalid
    }

    /** swapDevice: nothing changes when `oldDevice` is absent; otherwise its
        first occurrence becomes `newDevice`, in place and without re-sorting. */
    method SwapDevice(oldDevice: Device, newDevice: Device)
      modifies this
      ensures oldDevice !in old(devices) ==> devices == old(devices)
      ensures oldDevice in old(devices) ==>
        var i := IndexOf(old(devices), oldDevice);
        && |devices| == |old(devices)|
        && devices[i] == newDevice
        && (forall j :: 0 <= j < i ==> old(devices)[j] != oldDevice)
        && (forall j :: 0 <= j < |devices| && j != i ==> devices[j] == old(devices)[j])
    {
      var indexOfOldDevice := IndexOf(devices, oldDevice);
      if indexOfOldDevice < 0 {
        return;
      }
      devices := devices[indexOfOldDevice := newDevice];
    }

    /** addDevice: appends and re-sorts. */
    method AddDevice(device: Device)
      modifies this
      ensures NodeSorted(devices)
      ensures multiset(devices) == multiset(old(devices)) + multiset{device}
      ensures |devices| == |old(devices)| + 1 && device in devices
    {
      devices := SortDevices(devices + [device]);
      assert device in multiset(devices);
    }

    /** removeDevice: removes every occurrence and re-sorts. */
    method RemoveDevice(device: Device)
      modifies this
      ensures NodeSorted(devices)
      ensures device !in devices
      ensures multiset(devices) == multiset(old(devices))[device := 0]
    {
      devices := SortDevices(RemoveAll(devices, device));
      assert multiset(devices)[device] == 0;
    }
  }

  /** The rows of the list are exactly its devices: a row holds a device iff
      it is below the row count of the root, and every device sits at some row. */
  lemma RowsAreDevices(m: DeviceModel, d: Device)
    ensures forall row :: m.DeviceForIndex(row) != null <==> 0 <= row < m.RowCount(false)
    ensures d in m.devices ==> exists row :: 0 <= row < m.RowCount(false) && m.DeviceForIndex(row) == d
  {
    if d in m.devices {
      var row :| 0 <= row < |m.devices| && m.devices[row] == d;
      assert m.DeviceForIndex(row) == d;
    }
  }

  /** The display role yields a value at exactly the rows of the root. */
  lemma DisplayedRows(m: DeviceModel, formatByteSize: int -> string)
    ensures forall row :: m.Data(row, DisplayRole, formatByteSize) != Invalid <==> 0 <= row < m.RowCount(false)
  {
  }

  /** Once initialised, walking the rows in order visits the devices in
      node order. */
  lemma RowsInNodeOrder(m: DeviceModel, r1: int, r2: int)
    requires NodeSorted(m.devices)
    requires 0 <= r1 < r2 < m.RowCount(false)
    ensures !StrLess(m.DeviceForIndex(r2).deviceNode, m.DeviceForIndex(r1).deviceNode)
  {
  }
}
