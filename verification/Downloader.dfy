/** Installing verified binaries as one recoverable transaction. */
module Downloader {
  import opened Sequences
  import opened OrderedDict
  import opened BinManifest

  const PROVENANCE := ".provenance.json"

  /** How an operation ends: it works, raises an exception, or is cut off by an interrupt, which
      is no `Exception`. A copy that raises may leave a part behind. */
  datatype CopyFault = Copied | CopyFails | CopyLeaves(partial: Content) | CopyInterrupted

  datatype MoveFault = Moved | MoveFails | MoveInterrupted

  datatype RecordFault = Records(io: Io) | RecordRaises | RecordInterrupted

  datatype MergeFault = Merged | MergeFails | MergeInterrupted

  /** How each file operation of one transaction goes. Indices count the operations of a loop. */
  datatype Faults = Faults(
    copyProvenance: CopyFault, backUp: nat -> CopyFault, promote: nat -> MoveFault, record: nat -> RecordFault,
    readProvenance: bool, // a failed read counts as no records
    merge: MergeFault,
    unlink: nat -> bool, restore: nat -> bool, restoreProvenance: bool)

  /** The directory the verified outputs were staged in. */
  class Staging {
    var files: map<string, Content>

    constructor (files: map<string, Content>)
      ensures this.files == files
    {
      this.files := files;
    }
  }

  // ---------------------------------------------------------------- provenance records

  function Field(record: Record, name: string): string
  {
    if name in record then record[name] else ""
  }

  /** `record.get("output") or record.get("key")`, empty when there is neither. */
  function Identity(record: Record): string
  {
    if Field(record, "output") != "" then Field(record, "output") else Field(record, "key")
  }

  /** `_read_provenance`: anything unusable, and a read that fails, gives no records. */
  function ReadProvenance(bins: map<string, Content>, works: bool): seq<Record>
  {
    if works && PROVENANCE in bins && bins[PROVENANCE].ProvenanceJson? then bins[PROVENANCE].records else []
  }

  function Identified(records: seq<Record>): seq<(string, Record)>
  {
    if records == [] then []
    else
      var last := records[|records| - 1];
      Identified(records[..|records| - 1]) + if Identity(last) != "" then [(Identity(last), last)] else []
  }

  function MergedRecords(old_: seq<Record>, new_: seq<Record>): seq<Record>
  {
    Values(PutAll([], Identified(old_ + new_)))
  }

  lemma {:induction false} IdentifiedKeys(records: seq<Record>)
    ensures forall i :: 0 <= i < |Identified(records)| ==>
      Identified(records)[i].0 == Identity(Identified(records)[i].1) && Identified(records)[i].0 != ""
  {
    if records != [] {
      IdentifiedKeys(records[..|records| - 1]);
    }
  }

  lemma {:induction false} PutAllItems(items: seq<(string, Record)>)
    requires forall i :: 0 <= i < |items| ==> items[i].0 == Identity(items[i].1)
    ensures forall i :: 0 <= i < |PutAll([], items)| ==> PutAll([], items)[i].0 == Identity(PutAll([], items)[i].1)
  {
    if items != [] {
      var n := |items| - 1;
      PutAllItems(items[..n]);
      PutItem(PutAll([], items[..n]), items[n].0, items[n].1);
    }
  }

  lemma {:induction false} PutItem(d: Dict<string, Record>, k: string, v: Record)
    requires k == Identity(v) && forall i :: 0 <= i < |d| ==> d[i].0 == Identity(d[i].1)
    ensures forall i :: 0 <= i < |Put(d, k, v)| ==> Put(d, k, v)[i].0 == Identity(Put(d, k, v)[i].1)
  {
    if d != [] && d[0].0 != k {
      PutItem(d[1..], k, v);
    }
  }

  /** After a merge each identity has exactly one record: the last one given for it, with
      the new records after the old ones. */
  lemma MergeKeepsLastOfEach(old_: seq<Record>, new_: seq<Record>)
    ensures var merged := MergedRecords(old_, new_);
      && (forall i, j :: 0 <= i < j < |merged| ==> Identity(merged[i]) != Identity(merged[j]))
      && (forall r :: r in merged <==>
            Identity(r) != "" && LastValue(Identified(old_ + new_), Identity(r)) == Some(r))
  {
    var items := Identified(old_ + new_);
    var d := PutAll([], items);
    var merged := MergedRecords(old_, new_);
    IdentifiedKeys(old_ + new_);
    PutAllItems(items);
    PutAllMeaning(items, "");
    forall r
      ensures r in merged <==> Identity(r) != "" && LastValue(items, Identity(r)) == Some(r)
    {
      PutAllMeaning(items, Identity(r));
      if r in merged {
        var i :| 0 <= i < |merged| && merged[i] == r;
        LookupOfItem(d, i);
        LastValueIsItem(items, d[i].0);
      }
      if Identity(r) != "" && LastValue(items, Identity(r)) == Some(r) {
        LookupHasItem(d, Identity(r));
        var i :| 0 <= i < |d| && d[i].0 == Identity(r) && d[i].1 == r;
        assert merged[i] == r;
      }
    }
  }

  lemma {:induction false} LookupHasItem(d: Dict<string, Record>, k: string)
    requires Has(d, k)
    ensures exists i :: 0 <= i < |d| && d[i].0 == k && d[i].1 == Lookup(d, k).value
  {
    if d[0].0 != k {
      LookupHasItem(d[1..], k);
      var i :| 0 <= i < |d[1..]| && d[1..][i].0 == k && d[1..][i].1 == Lookup(d[1..], k).value;
      assert d[i + 1].0 == k;
    }
  }

  lemma {:induction false} LastValueIsItem(items: seq<(string, Record)>, k: string)
    requires LastValue(items, k).Some?
    requires forall i :: 0 <= i < |items| ==> items[i].0 != ""
    ensures k != ""
  {
    if items[|items| - 1].0 != k {
      LastValueIsItem(items[..|items| - 1], k);
    }
  }

  lemma {:induction false} IdentifiedConcat(a: seq<Record>, b: seq<Record>)
    ensures Identified(a + b) == Identified(a) + Identified(b)
  {
    if b == [] {
      assert a + b == a;
    } else {
      assert (a + b)[..|a + b| - 1] == a + b[..|b| - 1];
      IdentifiedConcat(a, b[..|b| - 1]);
    }
  }

  lemma {:induction false} LastValueConcat(a: seq<(string, Record)>, b: seq<(string, Record)>, k: string)
    ensures LastValue(a + b, k) == if LastValue(b, k).Some? then LastValue(b, k) else LastValue(a, k)
  {
    if b == [] {
      assert a + b == a;
    } else {
      assert (a + b)[..|a + b| - 1] == a + b[..|b| - 1];
      LastValueConcat(a, b[..|b| - 1], k);
    }
  }

  /** Which records the merged file holds: of each identity the last new one; and if there is no
      new one, the last old one, if and only if the old file could be read. */
  lemma MergedRecordIff(bins: map<string, Content>, works: bool, new_: seq<Record>, r: Record)
    ensures r in MergedRecords(ReadProvenance(bins, works), new_) <==>
      var id := Identity(r);
      && id != ""
      && (|| LastValue(Identified(new_), id) == Some(r)
          || (&& works && LastValue(Identified(new_), id) == None
              && LastValue(Identified(ReadProvenance(bins, true)), id) == Some(r)))
  {
    var old_ := ReadProvenance(bins, works);
    MergeKeepsLastOfEach(old_, new_);
    IdentifiedConcat(old_, new_);
    LastValueConcat(Identified(old_), Identified(new_), Identity(r));
  }

  /** A case in which all old records are lost: the file cannot be read when a merge replaces it. */
  lemma UnreadProvenanceIsLost(r: Record, new_: seq<Record>)
    requires Identity(r) != "" && forall n <- new_ :: Identity(n) != Identity(r)
    ensures var bins := map[PROVENANCE := ProvenanceJson([r])];
      && r in MergedRecords(ReadProvenance(bins, true), new_)
      && r !in MergedRecords(ReadProvenance(bins, false), new_)
  {
    var bins := map[PROVENANCE := ProvenanceJson([r])];
    MergedRecordIff(bins, true, new_, r);
    MergedRecordIff(bins, false, new_, r);
    NoLastValue(new_, Identity(r));
    assert [r][..0] == [] && Identified([r]) == [(Identity(r), r)];
  }

  lemma {:induction false} NoLastValue(records: seq<Record>, id: string)
    requires forall r <- records :: Identity(r) != id
    ensures LastValue(Identified(records), id) == None
  {
    if records != [] {
      var front, last := records[..|records| - 1], records[|records| - 1];
      assert last in records && forall r <- front :: r in records;
      NoLastValue(front, id);
      LastValueConcat(Identified(front), if Identity(last) != "" then [(Identity(last), last)] else [], id);
    }
  }

  /** What a record is told apart by: its output, and its key only if it has no output. */
  predicate IsNamed(record: Record, name: string)
  {
    && name != ""
    && if "output" in record && record["output"] != "" then record["output"] == name
       else "key" in record && record["key"] == name
  }

  /** The record at `i` has a name that no later one has. */
  ghost predicate LastOfItsName(records: seq<Record>, i: nat)
    requires i < |records|
  {
    exists name :: IsNamed(records[i], name) && forall j :: i < j < |records| ==> !IsNamed(records[j], name)
  }

  lemma IdentityIsName(record: Record, name: string)
    ensures IsNamed(record, name) <==> name != "" && Identity(record) == name
  {
  }

  /** `r` is the last record with that name. */
  ghost predicate IsLastNamed(records: seq<Record>, name: string, r: Record)
  {
    exists i :: 0 <= i < |records| && records[i] == r && IsNamed(r, name)
      && forall j :: i < j < |records| ==> !IsNamed(records[j], name)
  }

  lemma LastNamedSnoc(front: seq<Record>, last: Record, name: string, r: Record)
    ensures IsLastNamed(front + [last], name, r) <==>
      if IsNamed(last, name) then r == last else IsLastNamed(front, name, r)
  {
    var records, n := front + [last], |front|;
    assert records[n] == last;
    if !IsNamed(last, name) && IsLastNamed(front, name, r) {
      var i :| 0 <= i < n && front[i] == r && IsNamed(r, name) && forall j :: i < j < n ==> !IsNamed(front[j], name);
      assert records[i] == r;
    }
    if !IsNamed(last, name) && IsLastNamed(records, name, r) {
      var i :| 0 <= i < |records| && records[i] == r && IsNamed(r, name)
        && forall j :: i < j < |records| ==> !IsNamed(records[j], name);
      assert i < n && front[i] == r;
      assert forall j :: i < j < n ==> front[j] == records[j];
    }
  }

  lemma {:induction false} LastValueIff(records: seq<Record>, name: string, r: Record)
    requires name != ""
    ensures LastValue(Identified(records), name) == Some(r) <==> IsLastNamed(records, name, r)
  {
    if records != [] {
      var front, last := records[..|records| - 1], records[|records| - 1];
      assert records == front + [last];
      LastValueIff(front, name, r);
      IdentityIsName(last, name);
      LastNamedSnoc(front, last, name, r);
      LastValueConcat(Identified(front), if Identity(last) != "" then [(Identity(last), last)] else [], name);
    }
  }

  /** A merge of old and new records keeps exactly those that are the last of their name, and no two
      of the same name. */
  lemma MergedIffLastOfItsName(old_: seq<Record>, new_: seq<Record>, r: Record)
    ensures var all, merged := old_ + new_, MergedRecords(old_, new_);
      && (r in merged <==> exists i :: 0 <= i < |all| && all[i] == r && LastOfItsName(all, i))
      && (forall i, j, name :: 0 <= i < j < |merged| ==> !(IsNamed(merged[i], name) && IsNamed(merged[j], name)))
  {
    var all, merged, id := old_ + new_, MergedRecords(old_, new_), Identity(r);
    MergeKeepsLastOfEach(old_, new_);
    if id != "" {
      LastValueIff(all, id, r);
      IdentityIsName(r, id);
    }
    forall name
      ensures IsNamed(r, name) <==> name != "" && id == name
    {
      IdentityIsName(r, name);
    }
    forall i, j, name | 0 <= i < j < |merged|
      ensures !(IsNamed(merged[i], name) && IsNamed(merged[j], name))
    {
      IdentityIsName(merged[i], name);
      IdentityIsName(merged[j], name);
    }
  }

  /** A case: the two drivers of one archive, which have the same key, both stay. */
  lemma OutputsOfOneArchiveStay(a: Record, b: Record)
    requires a == map["key" := "windivert", "output" := "windivert/WinDivert.dll"]
    requires b == map["key" := "windivert", "output" := "windivert/WinDivert64.sys"]
    ensures a in MergedRecords([], [a, b]) && b in MergedRecords([], [a, b])
  {
    var all := [] + [a, b];
    var name, other := "windivert/WinDivert.dll", "windivert/WinDivert64.sys";
    assert name[19] == '.' && other[19] == '6';
    assert all[0] == a && all[1] == b;
    assert IsNamed(a, name) && IsNamed(b, other) && !IsNamed(b, name);
    assert LastOfItsName(all, 0) && LastOfItsName(all, 1);
    MergedIffLastOfItsName([], [a, b], a);
    MergedIffLastOfItsName([], [a, b], b);
  }

  // ---------------------------------------------------------------- the transaction

  datatype Stage = Proceed | Refuse | Raised | Interrupted

  /** `files` with the staged contents of `names` laid over it. */
  function Overlay(files: map<string, Content>, staged: map<string, Content>,
                   names: seq<string>): map<string, Content>
  {
    files + map n | n in names && n in staged :: staged[n]
  }

  function Without(files: map<string, Content>, names: seq<string>): map<string, Content>
  {
    files - set n | n in names
  }

  lemma OverlayStep(files: map<string, Content>, staged: map<string, Content>, names: seq<string>, n: string)
    requires n in staged
    ensures Overlay(files, staged, names + [n]) == Overlay(files, staged, names)[n := staged[n]]
  {
  }

  lemma WithoutStep(files: map<string, Content>, names: seq<string>, n: string)
    ensures Without(files, names + [n]) == Without(files, names) - {n}
  {
    assert (set x | x in names + [n]) == (set x | x in names) + {n};
  }

  // ---------------------------------------------------------------- backups

  /** A name can be backed up: staged, inside the directory, and copied if there is something
      to copy. */
  predicate CanBackUpOne(bins: map<string, Content>, staged: map<string, Content>, name: string,
                         safe: string -> bool, fault: CopyFault)
  {
    name in staged && safe(name) && (name in bins ==> fault == Copied)
  }

  ghost predicate CanBackUp(bins: map<string, Content>, staged: map<string, Content>, names: seq<string>,
                            safe: string -> bool, faults: Faults)
  {
    forall i :: 0 <= i < |names| ==> CanBackUpOne(bins, staged, names[i], safe, faults.backUp(i))
  }

  /** The copies go well up to one that is interrupted. */
  ghost predicate BackUpInterrupted(bins: map<string, Content>, staged: map<string, Content>, names: seq<string>,
                                    safe: string -> bool, faults: Faults)
  {
    exists i :: 0 <= i < |names| && CanBackUp(bins, staged, names[..i], safe, faults)
      && names[i] in staged && safe(names[i]) && names[i] in bins && faults.backUp(i) == CopyInterrupted
  }

  /** The backups taken so far hold what the installed files hold. */
  ghost predicate BackedUp(bins: map<string, Content>, names: seq<string>, backups: seq<string>,
                           backupFiles: map<string, Content>)
  {
    forall b <- backups :: b in names && b in bins && b in backupFiles && backupFiles[b] == bins[b]
  }

  /** Staged, and backed up if there is something to back up. */
  ghost predicate Replaceable(bins: map<string, Content>, staged: map<string, Content>, promoted: seq<string>,
                              backups: seq<string>)
  {
    forall p <- promoted :: p in staged && (p in bins ==> p in backups)
  }

  /** Backups of files other than `names` are as before. */
  ghost predicate SameOutside(before: map<string, Content>, after: map<string, Content>, names: seq<string>)
  {
    forall f :: f !in names ==> (f in before <==> f in after) && (f in before ==> after[f] == before[f])
  }

  lemma CanBackUpAt(bins: map<string, Content>, staged: map<string, Content>, names: seq<string>,
                    safe: string -> bool, faults: Faults, n: nat, i: nat)
    requires i < n <= |names| && CanBackUp(bins, staged, names[..n], safe, faults)
    ensures CanBackUpOne(bins, staged, names[i], safe, faults.backUp(i))
  {
    assert names[..n][i] == names[i];
  }

  lemma CannotBackUp(bins: map<string, Content>, staged: map<string, Content>, names: seq<string>,
                     safe: string -> bool, faults: Faults, i: nat)
    requires i < |names| && CanBackUp(bins, staged, names[..i], safe, faults)
    requires !CanBackUpOne(bins, staged, names[i], safe, faults.backUp(i))
    ensures !CanBackUp(bins, staged, names, safe, faults)
    ensures BackUpInterrupted(bins, staged, names, safe, faults) <==>
      names[i] in staged && safe(names[i]) && names[i] in bins && faults.backUp(i) == CopyInterrupted
  {
    forall j | 0 <= j < |names| && CanBackUp(bins, staged, names[..j], safe, faults)
      && !CanBackUpOne(bins, staged, names[j], safe, faults.backUp(j))
      ensures j == i
    {
      if i < j {
        CanBackUpAt(bins, staged, names, safe, faults, j, i);
      } else if j < i {
        CanBackUpAt(bins, staged, names, safe, faults, i, j);
      }
    }
  }

  /** The first loop: check the staged files and back up what they will replace. */
  method BackUpAll(store: Store, staging: Staging, names: seq<string>, safe: string -> bool, faults: Faults,
                   files: map<string, Content>)
      returns (stage: Stage, backups: seq<string>, backupFiles: map<string, Content>)
    ensures stage == Proceed <==> CanBackUp(store.bins, staging.files, names, safe, faults)
    ensures stage == Interrupted <==> BackUpInterrupted(store.bins, staging.files, names, safe, faults)
    ensures stage == Proceed ==> Replaceable(store.bins, staging.files, names, backups)
    ensures Distinct(names) ==> BackedUp(store.bins, names, backups, backupFiles)
    ensures SameOutside(files, backupFiles, names)
  {
    stage, backups, backupFiles := Proceed, [], files;
    for i := 0 to |names|
      invariant stage == Proceed
      invariant forall b <- backups :: b in names[..i]
      invariant CanBackUp(store.bins, staging.files, names[..i], safe, faults)
      invariant Replaceable(store.bins, staging.files, names[..i], backups)
      invariant Distinct(names) ==> BackedUp(store.bins, names, backups, backupFiles)
      invariant SameOutside(files, backupFiles, names)
    {
      var name := names[i];
      assert names[..i + 1] == names[..i] + [name];
      if !CanBackUpOne(store.bins, staging.files, name, safe, faults.backUp(i)) {
        CannotBackUp(store.bins, staging.files, names, safe, faults, i);
      }
      if name !in staging.files || !safe(name) {
        return Refuse, backups, backupFiles;
      }
      if name in store.bins {
        match faults.backUp(i) {
          case Copied =>
            backupFiles := backupFiles[name := store.bins[name]];
            backups := if name in backups then backups else backups + [name];
          case CopyFails =>
            return Raised, backups, backupFiles;
          case CopyLeaves(partial) =>
            backupFiles := backupFiles[name := partial];
            return Raised, backups, backupFiles;
          case CopyInterrupted =>
            return Interrupted, backups, backupFiles;
        }
      }
    }
    assert names[..|names|] == names;
  }

  /** The provenance file was backed up, if there was one. */
  predicate ProvenanceSafe(bins: map<string, Content>, faults: Faults)
  {
    PROVENANCE in bins ==> faults.copyProvenance == Copied
  }

  /** The provenance backup that `fault` leaves behind. */
  function ProvenanceBackup(bins: map<string, Content>, fault: CopyFault): map<string, Content>
  {
    if PROVENANCE !in bins then map[]
    else match fault
      case Copied => map[PROVENANCE := bins[PROVENANCE]]
      case CopyLeaves(partial) => map[PROVENANCE := partial]
      case _ => map[]
  }

  /** The backup of the provenance file is there, or as much of it as was copied. */
  ghost predicate ProvenanceKept(bins: map<string, Content>, faults: Faults, backupFiles: map<string, Content>)
  {
    var kept := ProvenanceBackup(bins, faults.copyProvenance);
    && (PROVENANCE in backupFiles <==> PROVENANCE in kept)
    && (PROVENANCE in kept ==> backupFiles[PROVENANCE] == kept[PROVENANCE])
  }

  /** The `try` block up to the moves: first the provenance file, then the outputs. */
  method BackUpFiles(store: Store, staging: Staging, names: seq<string>, safe: string -> bool, faults: Faults)
      returns (stage: Stage, backups: seq<string>, backupFiles: map<string, Content>)
    ensures stage == Proceed <==>
      ProvenanceSafe(store.bins, faults) && CanBackUp(store.bins, staging.files, names, safe, faults)
    ensures stage == Interrupted <==>
      if !ProvenanceSafe(store.bins, faults) then faults.copyProvenance == CopyInterrupted
      else BackUpInterrupted(store.bins, staging.files, names, safe, faults)
    ensures stage == Refuse ==> ProvenanceSafe(store.bins, faults)
    ensures stage == Proceed ==> Replaceable(store.bins, staging.files, names, backups)
    ensures Distinct(names) ==> BackedUp(store.bins, names, backups, backupFiles)
    ensures PROVENANCE !in names ==> ProvenanceKept(store.bins, faults, backupFiles)
  {
    backups, backupFiles := [], ProvenanceBackup(store.bins, faults.copyProvenance);
    if PROVENANCE in store.bins && faults.copyProvenance != Copied {
      stage := if faults.copyProvenance == CopyInterrupted then Interrupted else Raised;
      return;
    }
    stage, backups, backupFiles := BackUpAll(store, staging, names, safe, faults, backupFiles);
  }

  // ---------------------------------------------------------------- moves

  /** How many moves are made: up to one that does not work or whose staged file is gone. */
  function MovesMade(names: seq<string>, faults: Faults): (k: nat)
    ensures k <= |names|
    ensures forall i :: 0 <= i < k ==> faults.promote(i) == Moved && names[i] !in names[..i]
    ensures k < |names| ==> faults.promote(k) != Moved || names[k] in names[..k]
  {
    if names == [] then 0
    else
      var n := |names| - 1;
      assert forall i :: 0 <= i <= n ==> names[..n][..i] == names[..i];
      var k := MovesMade(names[..n], faults);
      if k == n && faults.promote(n) == Moved && names[n] !in names[..n] then n + 1 else k
  }

  /** One round of the moves: it is made, or the moves end here. */
  lemma MoveStep(names: seq<string>, faults: Faults, i: nat)
    requires i < |names| && i <= MovesMade(names, faults)
    ensures if faults.promote(i) == Moved && names[i] !in names[..i] then i + 1 <= MovesMade(names, faults)
      else i == MovesMade(names, faults)
  {
  }

  lemma PrefixStep(names: seq<string>, i: nat)
    requires i < |names|
    ensures names[..i + 1] == names[..i] + [names[i]]
  {
  }

  lemma StillStaged(staged: map<string, Content>, promoted: seq<string>, name: string)
    requires name in staged
    ensures name in Without(staged, promoted) <==> name !in promoted
    ensures name in Without(staged, promoted) ==> Without(staged, promoted)[name] == staged[name]
  {
  }

  /** The second loop: move the staged files into place. */
  method PromoteAll(store: Store, staging: Staging, names: seq<string>, faults: Faults)
      returns (stage: Stage, promoted: seq<string>)
    requires forall n <- names :: n in staging.files
    modifies store`bins, staging
    ensures promoted == names[..MovesMade(names, faults)]
    ensures stage == (if promoted == names then Proceed
                      else if faults.promote(|promoted|) == MoveInterrupted then Interrupted else Raised)
    ensures store.bins == Overlay(old(store.bins), old(staging.files), promoted)
    ensures staging.files == Without(old(staging.files), promoted)
  {
    stage, promoted := Proceed, [];
    for i := 0 to |names|
      invariant stage == Proceed && promoted == names[..i] && i <= MovesMade(names, faults)
      invariant store.bins == Overlay(old(store.bins), old(staging.files), promoted)
      invariant staging.files == Without(old(staging.files), promoted)
    {
      var name := names[i];
      PrefixStep(names, i);
      MoveStep(names, faults, i);
      assert name in names;
      StillStaged(old(staging.files), promoted, name);
      if faults.promote(i) == MoveInterrupted {
        return Interrupted, promoted;
      }
      if faults.promote(i) == MoveFails || name !in staging.files {
        return Raised, promoted;
      }
      OverlayStep(old(store.bins), old(staging.files), promoted, name);
      WithoutStep(old(staging.files), promoted, name);
      store.bins := store.bins[name := staging.files[name]];
      staging.files := staging.files - {name};
      promoted := promoted + [name];
    }
  }

  // ---------------------------------------------------------------- pins

  /** The pins after the files `names` were recorded with working operations. */
  function Repinned(pins: map<string, string>, bins: map<string, Content>, names: seq<string>,
                    hash: Content -> string): map<string, string>
  {
    if names == [] then pins
    else
      var n := |names| - 1;
      var front := Repinned(pins, bins, names[..n], hash);
      if names[n] in bins then front[names[n] := hash(bins[names[n]])] else front
  }

  lemma RepinnedStep(pins: map<string, string>, bins: map<string, Content>, names: seq<string>, i: nat,
                     hash: Content -> string)
    requires i < |names|
    ensures Repinned(pins, bins, names[..i + 1], hash) ==
      var front := Repinned(pins, bins, names[..i], hash);
      if names[i] in bins then front[names[i] := hash(bins[names[i]])] else front
  {
    assert names[..i + 1][..i] == names[..i];
  }

  /** Exactly the recorded files that are there have new pins. */
  lemma {:induction false} RepinnedMeaning(pins: map<string, string>, bins: map<string, Content>, names: seq<string>,
                                           hash: Content -> string, k: string)
    ensures var after := Repinned(pins, bins, names, hash);
      if k in names && k in bins then k in after && after[k] == hash(bins[k])
      else (k in after <==> k in pins) && (k in pins ==> after[k] == pins[k])
  {
    if names != [] {
      var n := |names| - 1;
      assert names == names[..n] + [names[n]];
      RepinnedMeaning(pins, bins, names[..n], hash, k);
    }
  }

  /** The pins are recorded up to a call that is interrupted. */
  ghost predicate PinsInterrupted(faults: Faults, n: nat)
  {
    exists i :: 0 <= i < n && faults.record(i) == RecordInterrupted
      && forall k :: 0 <= k < i ==> faults.record(k).Records?
  }

  ghost predicate PinsWork(faults: Faults, n: nat)
  {
    forall i :: 0 <= i < n ==> faults.record(i) == Records(WORKING)
  }

  /** Re-pin the promoted files; an exception here is swallowed, an interrupt is not. */
  method PinAll(store: Store, promoted: seq<string>, faults: Faults) returns (stage: Stage)
    modifies store`manifest
    ensures stage == if PinsInterrupted(faults, |promoted|) then Interrupted else Proceed
    ensures PinsWork(faults, |promoted|) ==>
      stage == Proceed && store.Pins() == Repinned(old(store.Pins()), store.bins, promoted, store.hash)
  {
    stage := Proceed;
    for i := 0 to |promoted|
      invariant stage == Proceed
      invariant forall k :: 0 <= k < i ==> faults.record(k).Records?
      invariant PinsWork(faults, i) ==>
        store.Pins() == Repinned(old(store.Pins()), store.bins, promoted[..i], store.hash)
    {
      match faults.record(i) {
        case RecordRaises =>
          return;
        case RecordInterrupted =>
          return Interrupted;
        case Records(io) =>
          RepinnedStep(old(store.Pins()), store.bins, promoted, i, store.hash);
          var _ := store.Record(promoted[i], io);
      }
    }
    assert promoted[..|promoted|] == promoted;
  }

  // ---------------------------------------------------------------- rollback

  ghost predicate RollBackWorks(faults: Faults)
  {
    (forall i: nat :: faults.unlink(i)) && (forall i: nat :: faults.restore(i)) && faults.restoreProvenance
  }

  /** The installed files once the promoted ones are gone and the backups are back. */
  function Undone(bins: map<string, Content>, promoted: seq<string>, backups: seq<string>,
                  backupFiles: map<string, Content>, provenanceExisted: bool): map<string, Content>
  {
    var restored := Overlay(Without(bins, promoted), backupFiles, backups);
    if provenanceExisted && PROVENANCE in backupFiles then restored[PROVENANCE := backupFiles[PROVENANCE]]
    else if provenanceExisted then restored
    else restored - {PROVENANCE}
  }

  /** The `except` branch: take the promoted files away, put the backups back. */
  method RollBack(store: Store, promoted: seq<string>, backups: seq<string>, backupFiles: map<string, Content>,
                  provenanceExisted: bool, faults: Faults)
    modifies store`bins
    ensures RollBackWorks(faults) && (forall b <- backups :: b in backupFiles) && PROVENANCE !in backups ==>
      store.bins == Undone(old(store.bins), promoted, backups, backupFiles, provenanceExisted)
  {
    for i := 0 to |promoted|
      invariant (forall k :: 0 <= k < i ==> faults.unlink(k)) ==>
        store.bins == Without(old(store.bins), promoted[..i])
    {
      assert promoted[..i + 1] == promoted[..i] + [promoted[i]];
      WithoutStep(old(store.bins), promoted[..i], promoted[i]);
      if faults.unlink(i) {
        store.bins := store.bins - {promoted[i]};
      }
    }
    assert promoted[..|promoted|] == promoted;
    ghost var emptied := store.bins;
    for i := 0 to |backups|
      invariant (forall k :: 0 <= k < i ==> faults.restore(k)) && (forall b <- backups :: b in backupFiles) ==>
        store.bins == Overlay(emptied, backupFiles, backups[..i])
    {
      assert backups[..i + 1] == backups[..i] + [backups[i]];
      if faults.restore(i) && backups[i] in backupFiles {
        OverlayStep(emptied, backupFiles, backups[..i], backups[i]);
        store.bins := store.bins[backups[i] := backupFiles[backups[i]]];
      }
    }
    assert backups[..|backups|] == backups;
    if faults.restoreProvenance {
      if !provenanceExisted {
        store.bins := store.bins - {PROVENANCE};
      } else if PROVENANCE in backupFiles {
        store.bins := store.bins[PROVENANCE := backupFiles[PROVENANCE]];
      }
    }
  }

  // ---------------------------------------------------------------- provenance

  /** The provenance file after a merge. */
  function MergedFile(bins: map<string, Content>, read: bool, records: seq<Record>): Content
  {
    ProvenanceJson(MergedRecords(ReadProvenance(bins, read), records))
  }

  /** Exactly the last of each name among the old records, if they were read, and the new ones. */
  lemma MergedFileIff(bins: map<string, Content>, read: bool, records: seq<Record>, r: Record)
    ensures var file := MergedFile(bins, read, records);
      var old_ := if read && PROVENANCE in bins && bins[PROVENANCE].ProvenanceJson?
        then bins[PROVENANCE].records else [];
      var all := old_ + records;
      && file.ProvenanceJson?
      && (r in file.records <==> exists i :: 0 <= i < |all| && all[i] == r && LastOfItsName(all, i))
  {
    MergedIffLastOfItsName(ReadProvenance(bins, read), records, r);
  }

  /** `_merge_provenance`: the new file replaces the old one whole, or it stays as it was. */
  method MergeProvenance(store: Store, records: seq<Record>, read: bool, fault: MergeFault) returns (stage: Stage)
    modifies store`bins
    ensures stage == match fault case Merged => Proceed case MergeFails => Raised case MergeInterrupted => Interrupted
    ensures store.bins ==
      if stage == Proceed then old(store.bins)[PROVENANCE := MergedFile(old(store.bins), read, records)]
      else old(store.bins)
  {
    var merged := ReadProvenance(store.bins, read);
    var byOutput: Dict<string, Record> := [];
    var all := merged + records;
    for i := 0 to |all|
      invariant byOutput == PutAll([], Identified(all[..i]))
      invariant store.bins == old(store.bins)
    {
      assert all[..i + 1][..i] == all[..i];
      var identity := Identity(all[i]);
      if identity == "" {
        assert Identified(all[..i + 1]) == Identified(all[..i]);
      } else {
        PutAllStep<string, Record>([], Identified(all[..i]), (identity, all[i]));
        byOutput := Put(byOutput, identity, all[i]);
      }
    }
    assert all[..|all|] == all;
    match fault {
      case MergeFails => return Raised;
      case MergeInterrupted => return Interrupted;
      case Merged =>
        store.bins := store.bins[PROVENANCE := ProvenanceJson(Values(byOutput))];
        return Proceed;
    }
  }

  // ---------------------------------------------------------------- the whole transaction

  /** Everything up to and including the moves goes well. */
  ghost predicate FilesInPlace(bins: map<string, Content>, staged: map<string, Content>, names: seq<string>,
                               safe: string -> bool, faults: Faults)
  {
    && ProvenanceSafe(bins, faults) && CanBackUp(bins, staged, names, safe, faults)
    && MovesMade(names, faults) == |names|
  }

  /** The first thing that does not go well before the provenance merge is an interrupt. */
  ghost predicate TryInterrupted(bins: map<string, Content>, staged: map<string, Content>, names: seq<string>,
                                 safe: string -> bool, faults: Faults)
  {
    if !ProvenanceSafe(bins, faults) then faults.copyProvenance == CopyInterrupted
    else if !CanBackUp(bins, staged, names, safe, faults) then BackUpInterrupted(bins, staged, names, safe, faults)
    else if MovesMade(names, faults) < |names| then faults.promote(MovesMade(names, faults)) == MoveInterrupted
    else PinsInterrupted(faults, |names|)
  }

  /** The outputs that get moved. */
  ghost function MovedOutputs(bins: map<string, Content>, staged: map<string, Content>, names: seq<string>,
                              safe: string -> bool, faults: Faults): seq<string>
  {
    if ProvenanceSafe(bins, faults) && CanBackUp(bins, staged, names, safe, faults)
    then names[..MovesMade(names, faults)] else []
  }

  /** The installed files after a failed transaction with a working rollback: as before,
      but for a provenance file whose own backup was cut short. */
  function RolledBack(bins: map<string, Content>, faults: Faults): map<string, Content>
  {
    if PROVENANCE in bins && faults.copyProvenance.CopyLeaves? then bins[PROVENANCE := faults.copyProvenance.partial]
    else bins
  }

  /** Recording the outputs where they are installed pins what was staged. */
  lemma PinnedAsStaged(bins: map<string, Content>, staged: map<string, Content>, names: seq<string>,
                       pins: map<string, string>, hash: Content -> string)
    requires forall n <- names :: n in staged
    ensures Repinned(pins, Overlay(bins, staged, names), names, hash) == Repinned(pins, staged, names, hash)
  {
    var installed := Overlay(bins, staged, names);
    assert forall n <- names :: n in installed && installed[n] == staged[n];
    RepinnedAgrees(pins, installed, staged, names, hash);
  }

  lemma {:induction false} RepinnedAgrees(pins: map<string, string>, a: map<string, Content>, b: map<string, Content>,
                                          names: seq<string>, hash: Content -> string)
    requires forall n <- names :: n in a && n in b && a[n] == b[n]
    ensures Repinned(pins, a, names, hash) == Repinned(pins, b, names, hash)
  {
    if names != [] {
      var n := |names| - 1;
      assert names[n] in names && forall m <- names[..n] :: m in names;
      RepinnedAgrees(pins, a, b, names[..n], hash);
    }
  }

  /** Taking promoted files away and putting the backups back restores every file. */
  lemma RollBackRestores(bins: map<string, Content>, staged: map<string, Content>, names: seq<string>,
                         promoted: seq<string>, backups: seq<string>, backupFiles: map<string, Content>)
    requires BackedUp(bins, names, backups, backupFiles)
    requires Replaceable(bins, staged, promoted, backups)
    ensures Overlay(Without(Overlay(bins, staged, promoted), promoted), backupFiles, backups) == bins
  {
  }

  /** So a rollback that works ends in `RolledBack`, from any point. */
  lemma UndoneIsRolledBack(bins: map<string, Content>, staged: map<string, Content>, names: seq<string>,
                           promoted: seq<string>, backups: seq<string>, backupFiles: map<string, Content>,
                           faults: Faults)
    requires PROVENANCE !in names && BackedUp(bins, names, backups, backupFiles)
    requires Replaceable(bins, staged, promoted, backups) && ProvenanceKept(bins, faults, backupFiles)
    ensures forall b <- backups :: b in backupFiles && b != PROVENANCE
    ensures Undone(Overlay(bins, staged, promoted), promoted, backups, backupFiles, PROVENANCE in bins)
         == RolledBack(bins, faults)
  {
    RollBackRestores(bins, staged, names, promoted, backups, backupFiles);
    assert PROVENANCE in bins ==> bins[PROVENANCE := bins[PROVENANCE]] == bins;
    assert PROVENANCE !in bins ==> bins - {PROVENANCE} == bins;
  }

  /** The `try` block of `_promote_staged_outputs` up to the provenance merge. */
  method TryPromote(store: Store, staging: Staging, names: seq<string>, safe: string -> bool, faults: Faults)
      returns (stage: Stage, promoted: seq<string>, backups: seq<string>, backupFiles: map<string, Content>)
    modifies store, staging
    ensures stage == Interrupted <==> TryInterrupted(old(store.bins), old(staging.files), names, safe, faults)
    ensures stage == Proceed <==>
      && FilesInPlace(old(store.bins), old(staging.files), names, safe, faults)
      && !TryInterrupted(old(store.bins), old(staging.files), names, safe, faults)
    ensures stage == Refuse ==> ProvenanceSafe(old(store.bins), faults)
    ensures promoted == MovedOutputs(old(store.bins), old(staging.files), names, safe, faults)
    ensures stage == Refuse ==> promoted == []
    ensures stage == Proceed ==> promoted == names
    ensures store.bins == Overlay(old(store.bins), old(staging.files), promoted)
    ensures Replaceable(old(store.bins), old(staging.files), promoted, backups)
    ensures Distinct(names) ==> BackedUp(old(store.bins), names, backups, backupFiles)
    ensures PROVENANCE !in names ==> ProvenanceKept(old(store.bins), faults, backupFiles)
    ensures !FilesInPlace(old(store.bins), old(staging.files), names, safe, faults) ==>
      store.manifest == old(store.manifest)
    ensures FilesInPlace(old(store.bins), old(staging.files), names, safe, faults) && PinsWork(faults, |names|) ==>
      store.Pins() == Repinned(old(store.Pins()), old(staging.files), names, store.hash)
  {
    promoted := [];
    stage, backups, backupFiles := BackUpFiles(store, staging, names, safe, faults);
    if stage != Proceed {
      return;
    }
    stage, promoted := PromoteAll(store, staging, names, faults);
    if stage == Proceed {
      PinnedAsStaged(old(store.bins), old(staging.files), names, store.Pins(), store.hash);
      stage := PinAll(store, promoted, faults);
    }
  }

  /** The end of the transaction: merge the provenance, or undo everything; an interrupt does
      neither. */
  method MergeOrRollBack(store: Store, tried: Stage, provenance: Option<seq<Record>>, promoted: seq<string>,
                         backups: seq<string>, backupFiles: map<string, Content>, provenanceExisted: bool,
                         faults: Faults) returns (stage: Stage)
    modifies store`bins
    ensures stage ==
      if tried != Proceed || provenance == None then tried
      else match faults.merge case Merged => Proceed case MergeFails => Raised case MergeInterrupted => Interrupted
    ensures stage == Proceed ==>
      store.bins ==
        if provenance == None then old(store.bins)
        else old(store.bins)[PROVENANCE := MergedFile(old(store.bins), faults.readProvenance, provenance.value)]
    ensures store.Pins() == old(store.Pins())
    ensures stage in {Refuse, Interrupted} ==> store.bins == old(store.bins)
    ensures stage == Raised && RollBackWorks(faults) ==>
      (forall b <- backups :: b in backupFiles) && PROVENANCE !in backups ==>
      store.bins == Undone(old(store.bins), promoted, backups, backupFiles, provenanceExisted)
  {
    stage := tried;
    if stage == Proceed && provenance.Some? {
      stage := MergeProvenance(store, provenance.value, faults.readProvenance, faults.merge);
    }
    if stage == Raised {
      RollBack(store, promoted, backups, backupFiles, provenanceExisted, faults);
    }
  }

  /** `_promote_staged_outputs` behind its outcome: the files and the stage it ended in. */
  method Transact(store: Store, staging: Staging, names: seq<string>, provenance: Option<seq<Record>>,
                  safe: string -> bool, faults: Faults) returns (stage: Stage)
    modifies store, staging
    ensures TryInterrupted(old(store.bins), old(staging.files), names, safe, faults) ==> stage == Interrupted
    ensures !TryInterrupted(old(store.bins), old(staging.files), names, safe, faults) ==>
      (stage == Proceed <==>
         && FilesInPlace(old(store.bins), old(staging.files), names, safe, faults)
         && (provenance.Some? ==> faults.merge == Merged))
    ensures !TryInterrupted(old(store.bins), old(staging.files), names, safe, faults) ==>
      (stage == Interrupted <==>
         && FilesInPlace(old(store.bins), old(staging.files), names, safe, faults)
         && provenance.Some? && faults.merge == MergeInterrupted)
    ensures stage == Proceed ==>
      var placed := Overlay(old(store.bins), old(staging.files), names);
      store.bins ==
        if provenance == None then placed
        else placed[PROVENANCE := MergedFile(placed, faults.readProvenance, provenance.value)]
    ensures stage == Interrupted ==>
      store.bins == Overlay(old(store.bins), old(staging.files),
                            MovedOutputs(old(store.bins), old(staging.files), names, safe, faults))
    ensures stage in {Refuse, Raised} && Distinct(names) && PROVENANCE !in names && RollBackWorks(faults) ==>
      store.bins == RolledBack(old(store.bins), faults)
    ensures PinsWork(faults, |names|) ==>
      store.Pins() ==
        if FilesInPlace(old(store.bins), old(staging.files), names, safe, faults)
        then Repinned(old(store.Pins()), old(staging.files), names, store.hash)
        else old(store.Pins())
  {
    var provenanceExisted := PROVENANCE in store.bins;
    var tried, promoted, backups, backupFiles := TryPromote(store, staging, names, safe, faults);
    if Distinct(names) && PROVENANCE !in names {
      UndoneIsRolledBack(old(store.bins), old(staging.files), names, promoted, backups, backupFiles, faults);
    }
    stage := MergeOrRollBack(store, tried, provenance, promoted, backups, backupFiles, provenanceExisted, faults);
  }

  /** A failed transaction leaves all files as before if and only if the provenance backup was
      not cut short, or there was nothing to back up. */
  lemma RollBackIsExact(bins: map<string, Content>, faults: Faults)
    ensures RolledBack(bins, faults) == bins <==>
      PROVENANCE in bins && faults.copyProvenance.CopyLeaves? ==> faults.copyProvenance.partial == bins[PROVENANCE]
  {
    if PROVENANCE in bins && faults.copyProvenance.CopyLeaves? {
      assert RolledBack(bins, faults)[PROVENANCE] == faults.copyProvenance.partial;
      assert bins[PROVENANCE := bins[PROVENANCE]] == bins;
    }
  }

  /** After a promotion every output verifies. After one that was undone because the provenance
      merge failed, an output verifies if and only if it was there before and has the digest of
      the one it made way for. */
  lemma PinsAfterTransaction(bins: map<string, Content>, staged: map<string, Content>, names: seq<string>,
                             pins: map<string, string>, hash: Content -> string, n: string)
    requires n in names && forall m <- names :: m in staged
    ensures var after := Repinned(pins, staged, names, hash);
      && VerifiesIn(Overlay(bins, staged, names), after, hash, n)
      && (VerifiesIn(bins, after, hash, n) <==> n in bins && hash(bins[n]) == hash(staged[n]))
  {
    var after := Repinned(pins, staged, names, hash);
    RepinnedMeaning(pins, staged, names, hash, n);
    assert Overlay(bins, staged, names)[n] == staged[n];
  }

  lemma StagedNames(bins: map<string, Content>, staged: map<string, Content>, names: seq<string>,
                    safe: string -> bool, faults: Faults)
    requires CanBackUp(bins, staged, names, safe, faults)
    ensures forall n <- names :: n in staged
  {
  }

  /** `_promote_staged_outputs`: true, false, or interrupted. */
  method PromoteStagedOutputs(store: Store, staging: Staging, names: seq<string>, provenance: Option<seq<Record>>,
                              safe: string -> bool, faults: Faults) returns (ok: bool, interrupted: bool)
    modifies store, staging
    // all ...
    ensures ok <==>
      && FilesInPlace(old(store.bins), old(staging.files), names, safe, faults)
      && !TryInterrupted(old(store.bins), old(staging.files), names, safe, faults)
      && (provenance.Some? ==> faults.merge == Merged)
    ensures ok ==>
      var placed := Overlay(old(store.bins), old(staging.files), names);
      store.bins ==
        if provenance == None then placed
        else placed[PROVENANCE := MergedFile(placed, faults.readProvenance, provenance.value)]
    // ... or nothing: exactly, unless the provenance backup was cut short
    ensures !ok && !interrupted && Distinct(names) && PROVENANCE !in names && RollBackWorks(faults) ==>
      && store.bins == RolledBack(old(store.bins), faults)
      && (store.bins == old(store.bins) <==>
            (PROVENANCE in old(store.bins) && faults.copyProvenance.CopyLeaves? ==>
               faults.copyProvenance.partial == old(store.bins)[PROVENANCE]))
    // ... or, when interrupted, as much as was moved: nothing is put back
    ensures interrupted <==>
      || TryInterrupted(old(store.bins), old(staging.files), names, safe, faults)
      || (&& FilesInPlace(old(store.bins), old(staging.files), names, safe, faults)
          && provenance.Some? && faults.merge == MergeInterrupted)
    ensures interrupted ==> !ok
    ensures interrupted ==>
      store.bins == Overlay(old(store.bins), old(staging.files),
                            MovedOutputs(old(store.bins), old(staging.files), names, safe, faults))
    // the pins, which no rollback restores
    ensures PinsWork(faults, |names|) ==>
      store.Pins() ==
        if FilesInPlace(old(store.bins), old(staging.files), names, safe, faults)
        then Repinned(old(store.Pins()), old(staging.files), names, store.hash)
        else old(store.Pins())
    // so every promoted output verifies, and one that was put back because the provenance
    // merge failed verifies only if its digest is that of the output it made way for
    ensures ok && PinsWork(faults, |names|) && PROVENANCE !in names ==>
      forall n <- names :: store.Verifies(n)
    ensures !ok && !interrupted && PinsWork(faults, |names|) && RollBackWorks(faults) ==>
      Distinct(names) && PROVENANCE !in names
        && FilesInPlace(old(store.bins), old(staging.files), names, safe, faults) ==>
      forall n <- names :: store.Verifies(n) <==>
        n in old(store.bins) && store.hash(old(store.bins)[n]) == store.hash(old(staging.files)[n])
  {
    var stage := Transact(store, staging, names, provenance, safe, faults);
    RollBackIsExact(old(store.bins), faults);
    if FilesInPlace(old(store.bins), old(staging.files), names, safe, faults) && PinsWork(faults, |names|) {
      StagedNames(old(store.bins), old(staging.files), names, safe, faults);
      forall n | n in names
        ensures var after := Repinned(old(store.Pins()), old(staging.files), names, store.hash);
          && VerifiesIn(Overlay(old(store.bins), old(staging.files), names), after, store.hash, n)
          && (VerifiesIn(old(store.bins), after, store.hash, n) <==>
                n in old(store.bins) && store.hash(old(store.bins)[n]) == store.hash(old(staging.files)[n]))
      {
        PinsAfterTransaction(old(store.bins), old(staging.files), names, old(store.Pins()), store.hash, n);
      }
    }
    ok, interrupted := stage == Proceed, stage == Interrupted;
  }

  // ---------------------------------------------------------------- cases that go wrong

  /** A provenance copy that is cut short replaces the whole file in the rollback. */
  lemma CutBackupReplacesProvenance(bins: map<string, Content>, faults: Faults, partial: Content)
    requires PROVENANCE in bins && partial != bins[PROVENANCE]
    ensures var cut := faults.(copyProvenance := CopyLeaves(partial));
      RolledBack(bins, cut)[PROVENANCE] == partial && RolledBack(bins, cut) != bins
  {
    RollBackIsExact(bins, faults.(copyProvenance := CopyLeaves(partial)));
  }

  /** An interrupt at the second of two moves leaves the new first output beside the old second. */
  lemma InterruptLeavesMix(a: string, b: string, old_: Content, new_: Content, faults: Faults)
    requires a != b && old_ != new_ && PROVENANCE !in {a, b}
    requires faults.promote(0) == Moved && faults.promote(1) == MoveInterrupted
    requires faults.backUp(0) == faults.backUp(1) == Copied
    ensures var bins, staged := map[a := old_, b := old_], map[a := new_, b := new_];
      && TryInterrupted(bins, staged, [a, b], _ => true, faults)
      && Overlay(bins, staged, MovedOutputs(bins, staged, [a, b], _ => true, faults)) == map[a := new_, b := old_]
  {
    var names := [a, b];
    assert MovesMade(names, faults) == 1;
    assert names[..1] == [a];
  }
}
