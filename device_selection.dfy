/**
 * Listing the Bluetooth devices of a managed-object snapshot and picking one by
 * index: `select_device`.
 */
module DeviceSelection {
  import opened Types
  import opened ObjectTree

  const DEVICE: string := "org.bluez.Device1"
  /** Stands in for a missing `Alias` or `Address`. */
  const UNKNOWN: string := "Unknown"

  /** One row of the device list: `{'alias': …, 'address': …, 'path': …}`. */
  datatype Device = Device(alias: string, address: string, path: Path)

  predicate IsDevice(e: Entry)
  {
    DEVICE in e.interfaces
  }

  /** The list row built for a device entry; a missing name or address reads "Unknown". */
  function DeviceOf(e: Entry): (d: Device)
    requires IsDevice(e)
    ensures d.path == e.path
    ensures "Alias" in e.interfaces[DEVICE] ==> d.alias == e.interfaces[DEVICE]["Alias"]
    ensures "Alias" !in e.interfaces[DEVICE] ==> d.alias == UNKNOWN
    ensures "Address" in e.interfaces[DEVICE] ==> d.address == e.interfaces[DEVICE]["Address"]
    ensures "Address" !in e.interfaces[DEVICE] ==> d.address == UNKNOWN
  {
    var props := e.interfaces[DEVICE];
    Device(if "Alias" in props then props["Alias"] else UNKNOWN,
           if "Address" in props then props["Address"] else UNKNOWN,
           e.path)
  }

  /** The rows for the device entries of `objs`, in snapshot order. */
  function Devices(objs: Snapshot): seq<Device>
  {
    if objs == [] then []
    else
      var last := objs[|objs| - 1];
      Devices(objs[..|objs| - 1]) + if IsDevice(last) then [DeviceOf(last)] else []
  }

  /** The device loop of `select_device`: one appended row per entry exposing `org.bluez.Device1`. */
  method ListDevices(objs: Snapshot) returns (devices: seq<Device>)
    ensures devices == Devices(objs)
    ensures |devices| <= |objs|
  {
    devices := [];
    var i := 0;
    while i < |objs|
      invariant 0 <= i <= |objs|
      invariant devices == Devices(objs[..i])
      invariant |devices| <= i
    {
      var e := objs[i];
      assert objs[..i + 1][..i] == objs[..i];
      if DEVICE in e.interfaces {
        var props := e.interfaces[DEVICE];
        var alias := if "Alias" in props then props["Alias"] else UNKNOWN;
        var address := if "Address" in props then props["Address"] else UNKNOWN;
        devices := devices + [Device(alias, address, e.path)];
      }
      i := i + 1;
    }
    assert objs[..i] == objs;
  }

  /** Listing distributes over concatenation of snapshots: the list keeps snapshot order. */
  lemma {:induction false} DevicesAppend(a: Snapshot, b: Snapshot)
    ensures Devices(a + b) == Devices(a) + Devices(b)
    decreases |b|
  {
    if b == [] {
      assert a + b == a;
    } else {
      var b' := b[..|b| - 1];
      assert (a + b)[..|a + b| - 1] == a + b';
      DevicesAppend(a, b');
    }
  }

  /** Every row comes from a device entry of the snapshot. */
  lemma {:induction false} DevicesSound(objs: Snapshot, k: nat)
    requires k < |Devices(objs)|
    ensures exists i :: 0 <= i < |objs| && IsDevice(objs[i]) && Devices(objs)[k] == DeviceOf(objs[i])
  {
    var init := objs[..|objs| - 1];
    var last := objs[|objs| - 1];
    if k < |Devices(init)| {
      DevicesSound(init, k);
      var i :| 0 <= i < |init| && IsDevice(init[i]) && Devices(init)[k] == DeviceOf(init[i]);
      assert objs[i] == init[i];
    } else {
      assert IsDevice(last) && Devices(objs)[k] == DeviceOf(last);
    }
  }

  /**
   * Every device entry has its row, and the rows stand in snapshot order: the row
   * of entry i sits right after the rows of the entries before it.
   */
  lemma DevicePosition(objs: Snapshot, i: nat)
    requires i < |objs| && IsDevice(objs[i])
    ensures |Devices(objs[..i])| < |Devices(objs)|
    ensures Devices(objs)[|Devices(objs[..i])|] == DeviceOf(objs[i])
  {
    assert objs == objs[..i] + [objs[i]] + objs[i + 1..];
    DevicesAppend(objs[..i] + [objs[i]], objs[i + 1..]);
    DevicesAppend(objs[..i], [objs[i]]);
    assert Devices([objs[i]]) == [DeviceOf(objs[i])] by {
      assert [objs[i]][..0] == [];
    }
  }

  /** Entries that do not expose `org.bluez.Device1` add no row. */
  lemma NonDevicesIgnored(objs: Snapshot, e: Entry)
    requires !IsDevice(e)
    ensures Devices(objs + [e]) == Devices(objs)
  {
  }

  /**
   * `devices[int(choice)]` for an already-parsed index, with Python's reading of a
   * negative index as counted from the end; `IndexError` gives `None`.
   */
  function PickIndex(devices: seq<Device>, index: int): (r: Option<Device>)
    ensures r.Some? <==> -|devices| <= index < |devices|
    ensures 0 <= index < |devices| ==> r == Some(devices[index])
    ensures -|devices| <= index < 0 ==> r == Some(devices[|devices| + index])
  {
    if 0 <= index < |devices| then Some(devices[index])
    else if -|devices| <= index < 0 then Some(devices[|devices| + index])
    else None
  }

  /**
   * `select_device` after the prompt: no device gives `None`; otherwise the device
   * at the index, or `None` for an index out of range. A selected device is the row
   * of a device entry of the snapshot.
   */
  method SelectDevice(objs: Snapshot, index: int) returns (selected: Option<Device>)
    ensures selected.Some? <==> -|Devices(objs)| <= index < |Devices(objs)|
    ensures selected == PickIndex(Devices(objs), index)
    ensures selected.Some? ==>
      exists i :: 0 <= i < |objs| && IsDevice(objs[i]) && selected.value == DeviceOf(objs[i])
  {
    var devices := ListDevices(objs);
    if |devices| == 0 {
      return None;
    }
    selected := PickIndex(devices, index);
    if selected.Some? {
      DevicesSound(objs, if index >= 0 then index else |devices| + index);
    }
  }
}
