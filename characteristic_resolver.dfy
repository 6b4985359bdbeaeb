/**
 * Finding the write and notify GATT characteristics of the selected device in a
 * managed-object snapshot: the scan in `main` that fills `write_path` and
 * `notify_path`.
 */
module CharacteristicResolver {
  import opened Types
  import opened AsciiCase
  import opened ObjectTree
  import opened Ir40Protocol

  const GATT_CHARACTERISTIC: string := "org.bluez.GattCharacteristic1"

  /** The scan indexes a characteristic's properties by "UUID"; a missing one raises `KeyError`. */
  datatype ResolveError = MissingUuid(path: Path)

  datatype Characteristics = Characteristics(writePath: Option<Path>, notifyPath: Option<Path>)

  /** An entry the scan looks at: a GATT characteristic whose path starts with the device path. */
  predicate IsCandidate(e: Entry, devicePath: Path)
  {
    GATT_CHARACTERISTIC in e.interfaces && devicePath <= e.path
  }

  /** A candidate on which the scan raises: its characteristic has no UUID property. */
  predicate LacksUuid(e: Entry, devicePath: Path)
  {
    IsCandidate(e, devicePath) && "UUID" !in e.interfaces[GATT_CHARACTERISTIC]
  }

  /** A candidate whose lower-cased UUID equals `uuid`. */
  predicate MatchesUuid(e: Entry, devicePath: Path, uuid: string)
  {
    IsCandidate(e, devicePath)
    && "UUID" in e.interfaces[GATT_CHARACTERISTIC]
    && Lower(e.interfaces[GATT_CHARACTERISTIC]["UUID"]) == uuid
  }

  /** Index of the last entry matching `uuid`, or -1 when no entry matches. */
  function LastMatchIndex(objs: Snapshot, devicePath: Path, uuid: string): (k: int)
    ensures -1 <= k < |objs|
    ensures k >= 0 ==> MatchesUuid(objs[k], devicePath, uuid)
    ensures forall j :: k < j < |objs| ==> !MatchesUuid(objs[j], devicePath, uuid)
  {
    if objs == [] then -1
    else if MatchesUuid(objs[|objs| - 1], devicePath, uuid) then |objs| - 1
    else LastMatchIndex(objs[..|objs| - 1], devicePath, uuid)
  }

  /** Path of the last entry matching `uuid`: the one a scan that overwrites on every match keeps. */
  function LastMatch(objs: Snapshot, devicePath: Path, uuid: string): Option<Path>
  {
    var k := LastMatchIndex(objs, devicePath, uuid);
    if k < 0 then None else Some(objs[k].path)
  }

  /** Index of the first candidate without a UUID, or |objs| when every candidate has one. */
  function FirstMissingUuid(objs: Snapshot, devicePath: Path): (k: nat)
    ensures k <= |objs|
    ensures k < |objs| ==> LacksUuid(objs[k], devicePath)
    ensures forall j :: 0 <= j < k ==> !LacksUuid(objs[j], devicePath)
  {
    if objs == [] then 0
    else if LacksUuid(objs[0], devicePath) then 0
    else 1 + FirstMissingUuid(objs[1..], devicePath)
  }

  /** Extending the scanned prefix by one entry: a match replaces the result, anything else keeps it. */
  lemma LastMatchStep(objs: Snapshot, i: nat, devicePath: Path, uuid: string)
    requires i < |objs|
    ensures LastMatch(objs[..i + 1], devicePath, uuid) ==
      if MatchesUuid(objs[i], devicePath, uuid) then Some(objs[i].path) else LastMatch(objs[..i], devicePath, uuid)
  {
  }

  /** The first candidate without a UUID is determined by its defining properties. */
  lemma FirstMissingUuidAt(objs: Snapshot, devicePath: Path, k: nat)
    requires k <= |objs|
    requires k < |objs| ==> LacksUuid(objs[k], devicePath)
    requires forall j :: 0 <= j < k ==> !LacksUuid(objs[j], devicePath)
    ensures FirstMissingUuid(objs, devicePath) == k
  {
  }

  /**
   * The scan of `main`: walks the snapshot in order; for every GATT characteristic
   * under the device path it lower-cases the UUID and records the path as the write
   * path when it equals `writeUuid`, or else as the notify path when it equals
   * `notifyUuid`. A characteristic without a UUID aborts the scan with `KeyError`.
   */
  method Scan(objs: Snapshot, devicePath: Path, writeUuid: string, notifyUuid: string)
    returns (r: Result<Characteristics, ResolveError>)
    requires writeUuid != notifyUuid
    ensures FirstMissingUuid(objs, devicePath) < |objs| ==>
      r == Failure(MissingUuid(objs[FirstMissingUuid(objs, devicePath)].path))
    ensures FirstMissingUuid(objs, devicePath) == |objs| ==>
      r == Success(Characteristics(LastMatch(objs, devicePath, writeUuid), LastMatch(objs, devicePath, notifyUuid)))
  {
    var writePath: Option<Path> := None;
    var notifyPath: Option<Path> := None;
    var i := 0;
    while i < |objs|
      invariant 0 <= i <= |objs|
      invariant forall j :: 0 <= j < i ==> !LacksUuid(objs[j], devicePath)
      invariant writePath == LastMatch(objs[..i], devicePath, writeUuid)
      invariant notifyPath == LastMatch(objs[..i], devicePath, notifyUuid)
    {
      var e := objs[i];
      LastMatchStep(objs, i, devicePath, writeUuid);
      LastMatchStep(objs, i, devicePath, notifyUuid);
      if GATT_CHARACTERISTIC in e.interfaces && devicePath <= e.path {
        var props := e.interfaces[GATT_CHARACTERISTIC];
        if "UUID" !in props {
          FirstMissingUuidAt(objs, devicePath, i);
          return Failure(MissingUuid(e.path));
        }
        var uuid := Lower(props["UUID"]);
        if uuid == writeUuid {
          writePath := Some(e.path);
        } else if uuid == notifyUuid {
          notifyPath := Some(e.path);
        }
      }
      i := i + 1;
    }
    assert objs[..i] == objs;
    FirstMissingUuidAt(objs, devicePath, i);
    return Success(Characteristics(writePath, notifyPath));
  }

  /** The resolution in `main`: the scan run with the IR40's write and notify UUIDs. */
  method Resolve(objs: Snapshot, devicePath: Path) returns (r: Result<Characteristics, ResolveError>)
    ensures FirstMissingUuid(objs, devicePath) < |objs| ==>
      r == Failure(MissingUuid(objs[FirstMissingUuid(objs, devicePath)].path))
    ensures FirstMissingUuid(objs, devicePath) == |objs| ==>
      r == Success(Characteristics(LastMatch(objs, devicePath, WRITE_UUID), LastMatch(objs, devicePath, NOTIFY_UUID)))
  {
    UuidsDistinct();
    r := Scan(objs, devicePath, WRITE_UUID, NOTIFY_UUID);
  }

  /**
   * A resolved path is `None` only when no entry matches; otherwise it is the path
   * of an entry that has the GATT characteristic interface, lies under the device
   * path and carries that UUID up to case, and no later entry matches.
   */
  lemma LastMatchMeaning(objs: Snapshot, devicePath: Path, uuid: string)
    ensures LastMatch(objs, devicePath, uuid) == None <==>
      forall j :: 0 <= j < |objs| ==> !MatchesUuid(objs[j], devicePath, uuid)
    ensures LastMatch(objs, devicePath, uuid).Some? ==>
      exists k :: 0 <= k < |objs|
        && objs[k].path == LastMatch(objs, devicePath, uuid).value
        && GATT_CHARACTERISTIC in objs[k].interfaces
        && devicePath <= objs[k].path
        && "UUID" in objs[k].interfaces[GATT_CHARACTERISTIC]
        && Lower(objs[k].interfaces[GATT_CHARACTERISTIC]["UUID"]) == uuid
        && forall j :: k < j < |objs| ==> !MatchesUuid(objs[j], devicePath, uuid)
  {
  }

  /** When exactly one entry matches, that entry's path is the one resolved. */
  lemma UniqueMatchResolved(objs: Snapshot, devicePath: Path, uuid: string, k: nat)
    requires k < |objs| && MatchesUuid(objs[k], devicePath, uuid)
    requires forall j :: 0 <= j < |objs| && j != k ==> !MatchesUuid(objs[j], devicePath, uuid)
    ensures LastMatch(objs, devicePath, uuid) == Some(objs[k].path)
  {
  }

  /** The last match is determined by its defining properties. */
  lemma LastMatchIndexAt(objs: Snapshot, devicePath: Path, uuid: string, k: int)
    requires -1 <= k < |objs|
    requires k >= 0 ==> MatchesUuid(objs[k], devicePath, uuid)
    requires forall j :: k < j < |objs| ==> !MatchesUuid(objs[j], devicePath, uuid)
    ensures LastMatchIndex(objs, devicePath, uuid) == k
  {
  }

  /** Where the entries of a snapshot stand after inserting `e` at position `i`. */
  lemma InsertedAt(objs: Snapshot, e: Entry, i: nat)
    requires i <= |objs|
    ensures |objs[..i] + [e] + objs[i..]| == |objs| + 1
    ensures (objs[..i] + [e] + objs[i..])[i] == e
    ensures forall j :: 0 <= j < i ==> (objs[..i] + [e] + objs[i..])[j] == objs[j]
    ensures forall j :: i < j <= |objs| ==> (objs[..i] + [e] + objs[i..])[j] == objs[j - 1]
  {
  }

  /** Inserting a non-candidate anywhere leaves the resolved path unchanged. */
  lemma NonCandidateKeepsMatch(objs: Snapshot, devicePath: Path, uuid: string, e: Entry, i: nat)
    requires i <= |objs| && !IsCandidate(e, devicePath)
    ensures LastMatch(objs[..i] + [e] + objs[i..], devicePath, uuid) == LastMatch(objs, devicePath, uuid)
  {
    var ins := objs[..i] + [e] + objs[i..];
    InsertedAt(objs, e, i);
    var k := LastMatchIndex(objs, devicePath, uuid);
    var k' := if k < i then k else k + 1;
    forall j | k' < j < |ins| ensures !MatchesUuid(ins[j], devicePath, uuid) {
      if j > i { assert ins[j] == objs[j - 1]; }
    }
    LastMatchIndexAt(ins, devicePath, uuid, k');
  }

  /** Inserting a non-candidate anywhere moves the failing entry's index but not the entry. */
  lemma NonCandidateKeepsFailure(objs: Snapshot, devicePath: Path, e: Entry, i: nat)
    requires i <= |objs| && !IsCandidate(e, devicePath)
    ensures FirstMissingUuid(objs[..i] + [e] + objs[i..], devicePath) ==
      if FirstMissingUuid(objs, devicePath) < i then FirstMissingUuid(objs, devicePath)
      else FirstMissingUuid(objs, devicePath) + 1
  {
    var ins := objs[..i] + [e] + objs[i..];
    InsertedAt(objs, e, i);
    var m := FirstMissingUuid(objs, devicePath);
    var m' := if m < i then m else m + 1;
    forall j | 0 <= j < m' ensures !LacksUuid(ins[j], devicePath) {
      if j > i { assert ins[j] == objs[j - 1]; }
    }
    FirstMissingUuidAt(ins, devicePath, m');
  }

  /**
   * Entries outside the device, and entries that are not characteristics, never
   * influence the scan, wherever they stand: inserting one leaves the resolved path
   * unchanged, the scan fails exactly when it failed before, and then on the same entry.
   */
  lemma NonCandidatesIgnored(objs: Snapshot, devicePath: Path, uuid: string, e: Entry, i: nat)
    requires i <= |objs| && !IsCandidate(e, devicePath)
    ensures LastMatch(objs[..i] + [e] + objs[i..], devicePath, uuid) == LastMatch(objs, devicePath, uuid)
    ensures FirstMissingUuid(objs[..i] + [e] + objs[i..], devicePath) < |objs| + 1
      <==> FirstMissingUuid(objs, devicePath) < |objs|
    ensures FirstMissingUuid(objs, devicePath) < |objs| ==>
      (objs[..i] + [e] + objs[i..])[FirstMissingUuid(objs[..i] + [e] + objs[i..], devicePath)].path
        == objs[FirstMissingUuid(objs, devicePath)].path
  {
    NonCandidateKeepsMatch(objs, devicePath, uuid, e, i);
    NonCandidateKeepsFailure(objs, devicePath, e, i);
    InsertedAt(objs, e, i);
  }

  /** With no characteristic under the device path, the scan resolves neither path. */
  lemma NothingUnderDeviceResolvesNothing(objs: Snapshot, devicePath: Path)
    requires forall j :: 0 <= j < |objs| ==> !IsCandidate(objs[j], devicePath)
    ensures FirstMissingUuid(objs, devicePath) == |objs|
    ensures LastMatch(objs, devicePath, WRITE_UUID) == None
    ensures LastMatch(objs, devicePath, NOTIFY_UUID) == None
  {
  }

  /** Matching ignores case: two UUID spellings that agree up to case match the same target. */
  lemma MatchIgnoresCase(e: Entry, e': Entry, devicePath: Path, uuid: string)
    requires e'.path == e.path
    requires GATT_CHARACTERISTIC in e.interfaces && GATT_CHARACTERISTIC in e'.interfaces
    requires "UUID" in e.interfaces[GATT_CHARACTERISTIC] && "UUID" in e'.interfaces[GATT_CHARACTERISTIC]
    requires EqualIgnoringCase(e.interfaces[GATT_CHARACTERISTIC]["UUID"], e'.interfaces[GATT_CHARACTERISTIC]["UUID"])
    ensures MatchesUuid(e, devicePath, uuid) <==> MatchesUuid(e', devicePath, uuid)
  {
  }

  /** In particular an upper-case spelling of a UUID is matched exactly when the lower-case one is. */
  lemma UpperCaseUuidMatches(e: Entry, devicePath: Path, uuid: string)
    requires GATT_CHARACTERISTIC in e.interfaces && "UUID" in e.interfaces[GATT_CHARACTERISTIC]
    ensures var upper := e.(interfaces := e.interfaces[GATT_CHARACTERISTIC :=
                e.interfaces[GATT_CHARACTERISTIC]["UUID" := Upper(e.interfaces[GATT_CHARACTERISTIC]["UUID"])]]);
      MatchesUuid(upper, devicePath, uuid) <==> MatchesUuid(e, devicePath, uuid)
  {
  }
}
