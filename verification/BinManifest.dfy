/**
 Hash pins for managed binaries: trust on first use. The manifest is one JSON file outside
 the directory it guards, with an older copy inside that directory that is migrated once.
 */
module BinManifest {
  import opened Sequences

  type Record = map<string, string>

  /** File contents, by what a JSON reader makes of them. */
  datatype Content =
    | Raw(bytes: string) // not JSON
    | PinsJson(entries: map<string, Option<string>>) // an object; `None` is a value that is no string
    | ProvenanceJson(records: seq<Record>)
    | OtherJson(isNull: bool)

  /** Whether each file operation of one manifest call works. */
  datatype Io = Io(hash: bool, read: bool, readLegacy: bool, saveMigrated: bool, save: bool)

  const WORKING := Io(true, true, true, true, true)

  /** What `json.loads` of a manifest file gives: `None` for no data at all. */
  function DecodePins(file: Option<Content>): Option<map<string, string>>
  {
    match file
    case None => None
    case Some(Raw(_)) => None
    case Some(PinsJson(entries)) => Some(map k | k in entries && entries[k].Some? :: entries[k].value)
    case Some(ProvenanceJson(_)) => Some(map[])
    case Some(OtherJson(isNull)) => if isNull then None else Some(map[])
  }

  function EncodePins(pins: map<string, string>): (file: Content)
    ensures DecodePins(Some(file)) == Some(pins)
  {
    var entries := map k | k in pins :: Some(pins[k]);
    assert (map k | k in entries && entries[k].Some? :: entries[k].value) == pins;
    PinsJson(entries)
  }

  function PinsOf(file: Option<Content>): map<string, string>
  {
    var pins := DecodePins(file);
    if pins.Some? then pins.value else map[]
  }

  /** The pins in force: those of the manifest, or of the legacy copy when there is none. */
  function PinsInForce(manifest: Option<Content>, legacy: Option<Content>): map<string, string>
  {
    var pins := DecodePins(manifest);
    if pins.Some? then pins.value else PinsOf(legacy)
  }

  // ---------------------------------------------------------------- one call, whatever fails

  /** The manifest is read and is JSON. */
  predicate Readable(manifest: Option<Content>, io: Io) { io.read && DecodePins(manifest).Some? }

  /** What a call finds in the legacy copy when the manifest gives it nothing. */
  function FromLegacy(legacy: Option<Content>, io: Io): map<string, string>
  {
    if io.readLegacy then PinsOf(legacy) else map[]
  }

  /** What `_load` returns. */
  function Loaded(manifest: Option<Content>, legacy: Option<Content>, io: Io): map<string, string>
  {
    if Readable(manifest, io) then PinsOf(manifest) else FromLegacy(legacy, io)
  }

  /** `_load` writes the legacy pins into the manifest. */
  predicate Migrates(manifest: Option<Content>, legacy: Option<Content>, io: Io)
  {
    !Readable(manifest, io) && FromLegacy(legacy, io) != map[] && io.saveMigrated
  }

  function PinsAfterLoad(manifest: Option<Content>, legacy: Option<Content>, io: Io): map<string, string>
  {
    if Migrates(manifest, legacy, io) then Loaded(manifest, legacy, io) else PinsInForce(manifest, legacy)
  }

  function PinsAfterRecord(manifest: Option<Content>, legacy: Option<Content>, name: string, digest: string,
                           io: Io): map<string, string>
  {
    if io.save then Loaded(manifest, legacy, io)[name := digest] else PinsAfterLoad(manifest, legacy, io)
  }

  function PinsAfterVerify(manifest: Option<Content>, legacy: Option<Content>, name: string, digest: string,
                           io: Io): map<string, string>
  {
    if name in Loaded(manifest, legacy, io) then PinsAfterLoad(manifest, legacy, io)
    else PinsAfterRecord(manifest, legacy, name, digest, io)
  }

  /** The pin of `name` in `before` is also in `after`. */
  predicate Kept(before: map<string, string>, after: map<string, string>, name: string)
  {
    name in before && name in after && after[name] == before[name]
  }

  /** A `record` keeps the pin of another file if and only if the manifest was readable, or
      nothing was saved, or the legacy copy held the same pin and was read. */
  lemma RecordKeepsPinIff(manifest: Option<Content>, legacy: Option<Content>, name: string, digest: string,
                          io: Io, other: string)
    requires other in PinsInForce(manifest, legacy) && other != name
    ensures Kept(PinsInForce(manifest, legacy), PinsAfterRecord(manifest, legacy, name, digest, io), other) <==>
      || Readable(manifest, io)
      || (!io.save && !(FromLegacy(legacy, io) != map[] && io.saveMigrated))
      || Kept(PinsInForce(manifest, legacy), FromLegacy(legacy, io), other)
  {
  }

  /** A `verify` keeps the pin of any file, its own included, if and only if the manifest was
      readable, or nothing was saved, or the legacy copy held the same pin and was read, or
      the file itself was pinned anew to the digest it had. */
  lemma VerifyKeepsPinIff(manifest: Option<Content>, legacy: Option<Content>, name: string, digest: string,
                          io: Io, other: string)
    requires other in PinsInForce(manifest, legacy)
    ensures
      var fromLegacy := FromLegacy(legacy, io);
      Kept(PinsInForce(manifest, legacy), PinsAfterVerify(manifest, legacy, name, digest, io), other) <==>
        || Readable(manifest, io)
        || (!(name !in fromLegacy && io.save) && !(fromLegacy != map[] && io.saveMigrated))
        || Kept(PinsInForce(manifest, legacy), fromLegacy, other)
        || (other == name && name !in fromLegacy && io.save && digest == PinsInForce(manifest, legacy)[name])
  {
  }

  /** A case in which it does not: the manifest pins `other` and cannot be read when `name` is
      verified. The pin is gone, and whatever `other` holds then is accepted. */
  lemma VerifyCanErasePins(name: string, other: string, digest: string, pin: string, later: string)
    requires name != other
    ensures var manifest := Some(EncodePins(map[other := pin]));
      var after := PinsAfterVerify(manifest, None, name, digest, WORKING.(read := false));
      && PinsInForce(manifest, None) == map[other := pin] && after == map[name := digest]
      && PinsAfterVerify(Some(EncodePins(after)), None, other, later, WORKING)
           == map[name := digest, other := later]
  {
    var manifest := Some(EncodePins(map[other := pin]));
    assert FromLegacy(None, WORKING.(read := false)) == map[];
    assert PinsAfterVerify(manifest, None, name, digest, WORKING.(read := false)) == map[][name := digest];
    assert Loaded(Some(EncodePins(map[name := digest])), None, WORKING) == map[name := digest];
  }

  // ---------------------------------------------------------------- what a file holds

  /** A file that counts as no manifest: it cannot be read, is missing, is no JSON, or is `null`. */
  predicate IsAbsent(file: Option<Content>, read: bool)
  {
    !read || file == None || file.value.Raw? || file.value == OtherJson(true)
  }

  /** The pin that a file has for a binary: a string under its name in an object. */
  function EntryOf(file: Option<Content>, name: string): Option<string>
  {
    if file.Some? && file.value.PinsJson? && name in file.value.entries then file.value.entries[name] else None
  }

  /** The pin of a binary: that of the manifest; and if there is none, of the legacy copy. */
  function PinFound(manifest: Option<Content>, legacy: Option<Content>, io: Io, name: string): Option<string>
  {
    if !IsAbsent(manifest, io.read) then EntryOf(manifest, name)
    else if io.readLegacy then EntryOf(legacy, name)
    else None
  }

  /** The pins are exactly the entries that are strings. */
  lemma PinsOfMeaning(file: Option<Content>, name: string)
    ensures (if name in PinsOf(file) then Some(PinsOf(file)[name]) else None) == EntryOf(file, name)
    ensures DecodePins(file) == None <==> IsAbsent(file, true)
  {
  }

  lemma LoadedMeaning(manifest: Option<Content>, legacy: Option<Content>, io: Io, name: string)
    ensures var pins := Loaded(manifest, legacy, io);
      (if name in pins then Some(pins[name]) else None) == PinFound(manifest, legacy, io, name)
  {
    PinsOfMeaning(manifest, name);
    PinsOfMeaning(legacy, name);
  }

  lemma EncodedMeaning(pins: map<string, string>, name: string)
    ensures EntryOf(Some(EncodePins(pins)), name) == if name in pins then Some(pins[name]) else None
    ensures !IsAbsent(Some(EncodePins(pins)), true)
  {
  }

  /** What the pins say about files. */
  predicate VerifiesIn(bins: map<string, Content>, pins: map<string, string>, hash: Content -> string, name: string)
  {
    name in bins && name in pins && pins[name] == hash(bins[name])
  }

  // ---------------------------------------------------------------- the store

  /** The managed binaries, the manifest, and its legacy copy. */
  class Store {
    var bins: map<string, Content>
    var manifest: Option<Content>
    const legacy: Option<Content>
    const hash: Content -> string

    constructor (bins: map<string, Content>, manifest: Option<Content>, legacy: Option<Content>,
                 hash: Content -> string)
      ensures this.bins == bins && this.manifest == manifest && this.legacy == legacy && this.hash == hash
    {
      this.bins, this.manifest, this.legacy, this.hash := bins, manifest, legacy, hash;
    }

    function Pins(): map<string, string>
      reads this
    {
      PinsInForce(manifest, legacy)
    }

    /** A launch of `name` would be allowed by its pin. */
    predicate Verifies(name: string)
      reads this
    {
      VerifiesIn(bins, Pins(), hash, name)
    }

    /** `_save`: what the next `_load` finds. */
    method Save(entries: map<string, string>, works: bool)
      modifies this`manifest
      ensures works ==> DecodePins(manifest) == Some(entries) && Pins() == entries
      ensures works ==> !IsAbsent(manifest, true)
      ensures works ==> forall k :: EntryOf(manifest, k) == if k in entries then Some(entries[k]) else None
      ensures !works ==> manifest == old(manifest)
    {
      if works {
        manifest := Some(EncodePins(entries));
        forall k
          ensures EntryOf(manifest, k) == if k in entries then Some(entries[k]) else None
        {
          EncodedMeaning(entries, k);
        }
      }
    }

    /** `_load`: an unreadable manifest counts as no manifest. */
    method Load(io: Io) returns (entries: map<string, string>)
      modifies this`manifest
      ensures entries == Loaded(old(manifest), legacy, io)
      ensures Pins() == PinsAfterLoad(old(manifest), legacy, io)
      ensures Readable(old(manifest), io) ==> manifest == old(manifest)
      ensures io.read && io.readLegacy ==> entries == old(Pins()) && Pins() == old(Pins())
      ensures forall k ::
        (if k in entries then Some(entries[k]) else None) == PinFound(old(manifest), legacy, io, k)
      // the legacy pins move into the manifest, if there are any
      ensures if IsAbsent(old(manifest), io.read) && entries != map[] && io.saveMigrated
        then forall k :: EntryOf(manifest, k) == PinFound(old(manifest), legacy, io, k)
        else manifest == old(manifest)
    {
      PinsOfMeaning(manifest, "");
      forall k
        ensures var pins := Loaded(manifest, legacy, io);
          (if k in pins then Some(pins[k]) else None) == PinFound(manifest, legacy, io, k)
      {
        LoadedMeaning(manifest, legacy, io, k);
      }
      var data := if io.read then DecodePins(manifest) else None;
      if data == None {
        var legacyPins := if io.readLegacy then PinsOf(legacy) else map[];
        if legacyPins != map[] {
          Save(legacyPins, io.saveMigrated);
        }
        return legacyPins;
      }
      return data.value;
    }

    /** `record`: pin, or refresh the pin of, one binary. */
    method Record(name: string, io: Io) returns (digest: Option<string>)
      modifies this`manifest
      ensures digest == if name in bins && io.hash then Some(hash(bins[name])) else None
      ensures digest == None ==> manifest == old(manifest)
      ensures digest.Some? ==> Pins() == PinsAfterRecord(old(manifest), legacy, name, hash(bins[name]), io)
      ensures digest.Some? && io.read && io.readLegacy ==>
        Pins() == if io.save then old(Pins())[name := hash(bins[name])] else old(Pins())
      ensures digest.Some? && io.save ==> !IsAbsent(manifest, true)
      ensures digest.Some? && io.save ==> forall k ::
        EntryOf(manifest, k) == if k == name then digest else PinFound(old(manifest), legacy, io, k)
    {
      if name !in bins || !io.hash {
        return None;
      }
      var value := hash(bins[name]);
      var entries := Load(io);
      Save(entries[name := value], io.save);
      return Some(value);
    }

    /** `verify`: a missing or unreadable binary is refused, a pinned one must match, and an
        unpinned one is pinned now and allowed. What counts as pinned is what could be read. */
    method Verify(name: string, io: Io) returns (ok: bool)
      modifies this`manifest
      ensures name !in bins || !io.hash ==> !ok && manifest == old(manifest)
      ensures name in bins && io.hash ==>
        var pins := Loaded(old(manifest), legacy, io);
        && (ok <==> name !in pins || pins[name] == hash(bins[name]))
        && Pins() == PinsAfterVerify(old(manifest), legacy, name, hash(bins[name]), io)
      ensures name in bins && io.hash ==>
        var pin := PinFound(old(manifest), legacy, io, name);
        && (ok <==> pin == None || pin == Some(hash(bins[name])))
        && (pin == None && io.save ==> !IsAbsent(manifest, true) && EntryOf(manifest, name) == Some(hash(bins[name])))
      ensures name in bins && io.hash && io.read && io.readLegacy ==>
        && (ok <==> name !in old(Pins()) || old(Pins())[name] == hash(bins[name]))
        && Pins() == if name !in old(Pins()) && io.save then old(Pins())[name := hash(bins[name])] else old(Pins())
    {
      if name !in bins || !io.hash {
        return false;
      }
      var digest := hash(bins[name]);
      var entries := Load(io);
      if name !in entries {
        Save(entries[name := digest], io.save);
        return true;
      }
      return entries[name] == digest;
    }
  }

  // ---------------------------------------------------------------- whole runs

  datatype Op =
    | VerifyOp(name: string)
    | RecordOp(name: string)
    | WriteOp(name: string, content: Content)
    | RemoveOp(name: string)

  function FilesAfter(bins: map<string, Content>, op: Op): map<string, Content>
  {
    match op
    case WriteOp(name, content) => bins[name := content]
    case RemoveOp(name) => bins - {name}
    case _ => bins
  }

  /** What one call with working file operations does to the pins. */
  function PinsAfter(bins: map<string, Content>, pins: map<string, string>, op: Op,
                     hash: Content -> string): map<string, string>
  {
    match op
    case RecordOp(name) => if name in bins then pins[name := hash(bins[name])] else pins
    case VerifyOp(name) => if name in bins && name !in pins then pins[name := hash(bins[name])] else pins
    case _ => pins
  }

  function PinsAfterAll(bins: map<string, Content>, pins: map<string, string>, ops: seq<Op>,
                        hash: Content -> string): map<string, string>
    decreases |ops|
  {
    if ops == [] then pins
    else PinsAfterAll(FilesAfter(bins, ops[0]), PinsAfter(bins, pins, ops[0], hash), ops[1..], hash)
  }

  /** The digest at the last `record` that found the file. Looks at files only. */
  function LastRecorded(bins: map<string, Content>, ops: seq<Op>, name: string,
                        hash: Content -> string): Option<string>
    decreases |ops|
  {
    if ops == [] then None
    else
      var later := LastRecorded(FilesAfter(bins, ops[0]), ops[1..], name, hash);
      if later.Some? then later
      else if ops[0] == RecordOp(name) && name in bins then Some(hash(bins[name]))
      else None
  }

  /** The digest at the first `verify` that found the file. Looks at files only. */
  function FirstVerified(bins: map<string, Content>, ops: seq<Op>, name: string,
                         hash: Content -> string): Option<string>
    decreases |ops|
  {
    if ops == [] then None
    else if ops[0] == VerifyOp(name) && name in bins then Some(hash(bins[name]))
    else FirstVerified(FilesAfter(bins, ops[0]), ops[1..], name, hash)
  }

  /** Trust on first use, over every run: the pin is what the last `record` saw; failing
      that, the pin there was at the start; failing that, what the first `verify` saw. */
  lemma {:induction false} PinIsTrustOnFirstUse(
    bins: map<string, Content>, pins: map<string, string>, ops: seq<Op>, name: string, hash: Content -> string)
    ensures var after := PinsAfterAll(bins, pins, ops, hash);
      var recorded, verified := LastRecorded(bins, ops, name, hash), FirstVerified(bins, ops, name, hash);
      (if name in after then Some(after[name]) else None) ==
      if recorded.Some? then recorded
      else if name in pins then Some(pins[name])
      else verified
    decreases |ops|
  {
    if ops != [] {
      PinIsTrustOnFirstUse(FilesAfter(bins, ops[0]), PinsAfter(bins, pins, ops[0], hash), ops[1..], name, hash);
    }
  }

  /** The methods do what the run functions say, one call at a time. */
  method Perform(store: Store, op: Op)
    modifies store
    ensures store.bins == FilesAfter(old(store.bins), op)
    ensures store.Pins() == PinsAfter(old(store.bins), old(store.Pins()), op, store.hash)
  {
    match op {
      case VerifyOp(name) => var _ := store.Verify(name, WORKING);
      case RecordOp(name) => var _ := store.Record(name, WORKING);
      case WriteOp(name, content) => store.bins := store.bins[name := content];
      case RemoveOp(name) => store.bins := store.bins - {name};
    }
  }
}
