/** Exported identity files on macOS: a durable receipt precedes every identity byte, and only files that a
    receipt, or the running export itself, identifies are deleted. Every method of the world requires and
    keeps Safe, so Safe holds wherever the process stops. */
module EapExports {
  import opened Wrappers
  import opened EapState

  datatype FileId = FileId(device: nat, inode: nat)

  const NO_FILE := FileId(0, 0)

  datatype Owner = Desktop | Service | Stranger

  datatype File = File(id: FileId, owner: Owner, regular: bool, bytes: string)

  datatype Receipt = Receipt(artifact: Artifact, id: FileId, complete: bool)

  /** All these bytes reached the file that was created at the path, and the desktop user owns it. */
  datatype Export = Export(path: string, id: FileId, raw: string)

  /** Why a file was deleted: its receipt, or because the running export had created it. */
  datatype Reason = ByReceipt(receipt: Receipt) | JustCreated(id: FileId)

  datatype Deletion = Deletion(path: string, file: File, reason: Reason)

  const MAX_RECEIPTS := 64
  const MAX_SIZE := 0x10_0000

  /** The receipt names this very file, and a complete receipt also its content and the desktop user. */
  predicate Identifies(hash: string -> string, receipt: Receipt, file: File) {
    && file.regular && |file.bytes| <= MAX_SIZE
    && (file.owner == Desktop || (!receipt.complete && file.owner == Service))
    && file.id == receipt.id && receipt.id.inode != 0
    && (receipt.complete ==> hash(file.bytes) == receipt.artifact.sha256)
  }

  ghost predicate Lawful(hash: string -> string, d: Deletion) {
    match d.reason
    case ByReceipt(receipt) =>
      && receipt.artifact.path == d.path
      && d.file.regular && |d.file.bytes| <= 0x10_0000 && d.file.id == receipt.id && d.file.id.inode != 0
      && (if receipt.complete then d.file.owner == Desktop && hash(d.file.bytes) == receipt.artifact.sha256
          else d.file.owner != Stranger)
    case JustCreated(id) => d.file.id == id && d.file.regular
  }

  ghost predicate SameAt(path: string, before: map<string, File>, after: map<string, File>) {
    (path in after <==> path in before) && (path in before ==> after[path] == before[path])
  }

  class World {
    /** The desktop user does not act between the service's calls. */
    const alone: bool
    /** No call fails. */
    const reliable: bool
    const hash: string -> string
    const managed: string -> bool
    var files: map<string, File>
    var receipts: map<string, Receipt>
    /** The files that identity bytes were written into, while they are in place. */
    ghost var written: map<string, FileId>
    /** The file that the running export created. */
    ghost var creating: Option<(string, FileId)>
    ghost var exported: set<Export>
    ghost var deletions: seq<Deletion>

    ghost predicate Safe()
      reads this
    {
      && (forall p :: p in receipts ==> receipts[p].artifact.path == p)
      && (forall p :: p in written ==>
            && p in files && files[p].id == written[p]
            && p in receipts && receipts[p].id == written[p])
      && (forall i :: 0 <= i < |deletions| ==> Lawful(hash, deletions[i]))
    }

    constructor (hash: string -> string, managed: string -> bool, alone: bool, reliable: bool)
      ensures Safe() && this.hash == hash && this.managed == managed && this.alone == alone && this.reliable == reliable
      ensures files == map[] && receipts == map[]
    {
      this.hash, this.managed, this.alone, this.reliable := hash, managed, alone, reliable;
      files, receipts, written, creating, exported, deletions := map[], map[], map[], None, {}, [];
    }

    /** An export can be removed: its path is managed, and its receipt, if there is one, identifies what is in
        place; without a receipt nothing may be in place. */
    ghost predicate Removable(artifact: Artifact)
      reads this
    {
      RemovableIn(receipts, files, artifact)
    }

    ghost predicate RemovableIn(receipts: map<string, Receipt>, files: map<string, File>, artifact: Artifact) {
      var path := artifact.path;
      && managed(path) && |artifact.sha256| == 64
      && (if path in receipts then
            receipts[path].artifact == artifact && (path in files ==> Identifies(hash, receipts[path], files[path]))
          else
            path !in files)
    }

    ghost predicate Steady()
      reads this
    {
      alone && reliable
    }

    /** The desktop user acts: any file may change, vanish, or be replaced. Only exports write identity bytes. */
    method Elapse()
      requires Safe()
      modifies this`files, this`written
      ensures Safe() && written.Keys <= old(written).Keys
      ensures alone ==> files == old(files) && written == old(written)
    {
      if alone {
        return;
      }
      files := *;
      written := map p | p in written && p in files && files[p].id == written[p] :: written[p];
    }

    /** Replaces a receipt. A failure may leave the old receipt or the new one. */
    method SaveReceipt(receipt: Receipt) returns (ok: bool)
      requires Safe() && (receipt.artifact.path in written ==> receipt.id == written[receipt.artifact.path])
      modifies this`files, this`written, this`receipts
      ensures Safe() && written.Keys <= old(written).Keys
      ensures ok ==> receipts == old(receipts)[receipt.artifact.path := receipt]
      ensures !ok ==> receipts == old(receipts) || receipts == old(receipts)[receipt.artifact.path := receipt]
      ensures reliable ==> ok
      ensures alone ==> files == old(files)
    {
      Elapse();
      var renamed: bool := *;
      renamed := renamed || reliable;
      if renamed {
        receipts := receipts[receipt.artifact.path := receipt];
      }
      var synced: bool := *;
      ok := renamed && (synced || reliable);
    }

    /** Creates the file, which must not exist. */
    method CreateFile(path: string) returns (id: Option<FileId>)
      requires Safe()
      modifies this`files, this`written, this`creating
      ensures Safe() && written.Keys <= old(written).Keys
      ensures id.Some? ==> creating == Some((path, id.value)) && path !in written
      ensures id.None? ==> creating == old(creating)
      ensures id.Some? ==> id.value.inode != 0
      ensures alone && id.Some? ==> files == old(files)[path := File(id.value, Service, true, "")]
      ensures Steady() && path !in old(files) ==> id.Some?
    {
      Elapse();
      var created: bool, device: nat, number: nat := *, *, *;
      var fresh_ := FileId(device, number + 1);
      if (!created && !reliable) || path in files {
        return None;
      }
      files := files[path := File(fresh_, Service, true, "")];
      id, creating := Some(fresh_), Some((path, fresh_));
    }

    /** Writes through the open file and gives it to the desktop user. Success means that all bytes reached the open
        file; they are at the path only if the file is still there. */
    method WriteIdentity(path: string, id: FileId, raw: string) returns (ok: bool)
      requires Safe() && creating == Some((path, id))
      requires path in receipts && receipts[path].id == id
      modifies this`files, this`written, this`exported
      ensures Safe() && written.Keys <= old(written).Keys + {path}
      ensures path in files && files[path].id == id ==> path in written
      ensures exported == if ok then old(exported) + {Export(path, id, raw)} else old(exported)
      ensures alone && ok && path in old(files) && old(files)[path].id == id ==>
                files == old(files)[path := old(files)[path].(bytes := raw, owner := Desktop)]
      ensures reliable ==> ok
    {
      Elapse();
      var part: nat, given: bool, fails: bool := *, *, *;
      if reliable {
        part, given, fails := |raw|, true, false;
      }
      if path in files && files[path].id == id {
        var bytes := if part < |raw| then raw[..part] else raw;
        files := files[path := files[path].(bytes := bytes, owner := if given then Desktop else Service)];
        written := written[path := id];
      }
      ok := part >= |raw| && given && !fails;
      if ok {
        exported := exported + {Export(path, id, raw)};
      }
    }

    /** Deletes the file the running export created, if it is still in place. Close, check and removal are one
        step. */
    method RemoveCreated(path: string, id: FileId)
      requires Safe() && creating == Some((path, id))
      modifies this`files, this`written, this`deletions
      ensures Safe() && written.Keys <= old(written).Keys && Grew(old(deletions), path)
      ensures alone ==> if deletions == old(deletions) then files == old(files) else files == old(files) - {path}
      ensures Steady() && path in old(files) && old(files)[path].regular && old(files)[path].id == id ==> path !in files
    {
      Elapse();
      var fails: bool := *;
      if (!fails || reliable) && path in files && files[path].regular && files[path].id == id {
        deletions := deletions + [Deletion(path, files[path], JustCreated(id))];
        files, written := files - {path}, written - {path};
      }
    }

    /** Deletes a file that its receipt identifies. Check and removal are one step. */
    method RemoveIdentified(receipt: Receipt) returns (ok: bool)
      requires Safe() && receipt.artifact.path in receipts && receipts[receipt.artifact.path] == receipt
      modifies this`files, this`written, this`deletions
      ensures Safe() && written.Keys <= old(written).Keys && Grew(old(deletions), receipt.artifact.path)
      ensures ok ==> receipt.artifact.path !in written && |deletions| == |old(deletions)| + 1
      ensures !ok ==> deletions == old(deletions)
      ensures alone ==> files == if ok then old(files) - {receipt.artifact.path} else old(files)
      ensures alone && ok ==>
                && receipt.artifact.path in old(files)
                && Identifies(hash, receipt, old(files)[receipt.artifact.path])
      ensures Steady() && receipt.artifact.path in old(files) ==>
                ok == Identifies(hash, receipt, old(files)[receipt.artifact.path])
    {
      Elapse();
      var path := receipt.artifact.path;
      if path !in files || !Identifies(hash, receipt, files[path]) {
        return false;
      }
      var fails: bool := *;
      ok := !fails || reliable;
      if ok {
        deletions := deletions + [Deletion(path, files[path], ByReceipt(receipt))];
        files, written := files - {path}, written - {path};
      }
    }

    /** Drops the receipt of a file that is gone. */
    method RemoveReceipt(path: string) returns (ok: bool)
      requires Safe() && path !in written
      modifies this`files, this`written, this`receipts
      ensures Safe() && written.Keys <= old(written).Keys
      ensures receipts == if ok then old(receipts) - {path} else old(receipts)
      ensures reliable ==> ok
      ensures alone ==> files == old(files)
    {
      Elapse();
      var fails: bool := *;
      ok := !fails || reliable;
      if ok {
        receipts := receipts - {path};
      }
    }

    /** At most one more deletion, of this path. */
    twostate predicate Grew(before: seq<Deletion>, path: string)
      reads this
    {
      || deletions == before
      || (|deletions| == |before| + 1 && deletions[..|before|] == before && deletions[|before|].path == path)
    }
  }

  class DarwinExports {
    const world: World

    constructor (world: World)
      ensures this.world == world
    {
      this.world := world;
    }

    /** Deletes an export and its receipt. Success leaves neither the receipt nor a file with identity bytes;
        failure keeps the receipt. A file without a receipt, or not the receipt's, is preserved. */
    method RemoveArtifact(artifact: Artifact) returns (ok: bool)
      requires world.Safe()
      modifies world`files, world`written, world`receipts, world`deletions
      ensures world.Safe() && world.written.Keys <= old(world.written).Keys
      ensures ok ==> artifact.path !in world.receipts && artifact.path !in world.written
      ensures ok ==> world.receipts == old(world.receipts) - {artifact.path}
      ensures !ok ==> world.receipts == old(world.receipts)
      ensures artifact.path !in old(world.receipts) ==> world.deletions == old(world.deletions)
      ensures world.Grew(old(world.deletions), artifact.path)
      ensures world.alone ==> world.files == old(world.files) || world.files == old(world.files) - {artifact.path}
      ensures world.alone && !old(world.Removable(artifact)) ==> !ok && world.files == old(world.files)
      ensures world.Steady() ==> (ok <==> old(world.Removable(artifact)))
    {
      if !world.managed(artifact.path) || |artifact.sha256| != 64 {
        return false;
      }
      world.Elapse();
      var path := artifact.path;
      if path !in world.receipts {
        ok := path !in world.files;
        return;
      }
      var unreadable: bool := *;
      if (unreadable && !world.reliable) || world.receipts[path].artifact != artifact {
        return false;
      }
      if path in world.files {
        ok := world.RemoveIdentified(world.receipts[path]);
        if !ok {
          return;
        }
      }
      ok := world.RemoveReceipt(path);
    }

    /** Exports identity bytes to a fresh path: receipt, file, receipt with the file's identity, bytes, complete
        receipt. A failure removes what it can and leaves the receipt for what it cannot. */
    method ExportFile(path: string, raw: string) returns (result: Option<Artifact>)
      requires world.Safe() && path !in world.receipts
      modifies world
      ensures world.Safe() && world.written.Keys <= old(world.written).Keys + {path}
      ensures world.receipts - {path} == old(world.receipts)
      ensures result.Some? ==>
                && result.value == Artifact(path, world.hash(raw))
                && path in world.receipts && world.receipts[path].complete
                  && world.receipts[path].artifact == result.value
      ensures result.Some? ==> Export(path, world.receipts[path].id, raw) in world.exported
      ensures result.Some? && world.alone ==>
                path in world.files && (Identifies(world.hash, world.receipts[path], world.files[path]) <==>
                  |raw| <= MAX_SIZE)
      ensures world.Steady() && path !in old(world.files) ==> result.Some?
      ensures old(world.deletions) <= world.deletions
      ensures forall i :: |old(world.deletions)| <= i < |world.deletions| ==> world.deletions[i].path == path
    {
      var unusable: bool := *;
      if unusable && !world.reliable {
        return None;
      }
      var receipt := Receipt(Artifact(path, world.hash(raw)), NO_FILE, false);
      var ok := world.SaveReceipt(receipt);
      assert world.receipts - {path} == old(world.receipts);
      if !ok {
        return None;
      }
      receipt, ok := FillFile(receipt, raw);
      if !ok {
        var removed := RemoveArtifact(receipt.artifact);
        return None;
      }
      result := Some(receipt.artifact);
    }

    /** The file and its receipts, once the first receipt is durable. */
    method FillFile(first: Receipt, raw: string) returns (receipt: Receipt, ok: bool)
      requires world.Safe() && first.id == NO_FILE && !first.complete
      requires first.artifact.path in world.receipts && world.receipts[first.artifact.path] == first
      requires first.artifact.path !in world.written
      modifies world
      ensures world.Safe() && world.written.Keys <= old(world.written).Keys + {first.artifact.path}
      ensures world.receipts - {first.artifact.path} == old(world.receipts) - {first.artifact.path}
      ensures receipt.artifact == first.artifact
      ensures ok ==> receipt.complete && world.receipts == old(world.receipts)[first.artifact.path := receipt]
      ensures ok ==> Export(first.artifact.path, receipt.id, raw) in world.exported && receipt.id.inode != 0
      ensures ok && world.alone ==>
                world.files == old(world.files)[first.artifact.path := File(receipt.id, Desktop, true, raw)]
      ensures world.Steady() && first.artifact.path !in old(world.files) ==> ok
      ensures world.Grew(old(world.deletions), first.artifact.path)
    {
      receipt := first;
      var path := receipt.artifact.path;
      var created := world.CreateFile(path);
      if created.None? {
        return receipt, false;
      }
      var id := created.value;
      var unknown: bool := *;
      if unknown && !world.reliable {
        return receipt, false;
      }
      receipt := receipt.(id := id);
      ok := world.SaveReceipt(receipt);
      if !ok {
        world.RemoveCreated(path, id);
        return;
      }
      ok := world.WriteIdentity(path, id, raw);
      if !ok {
        world.RemoveCreated(path, id);
        return;
      }
      receipt := receipt.(complete := true);
      ok := world.SaveReceipt(receipt);
    }

    /** Every receipt that is not retained identifies its file. */
    ghost predicate AllRemovable(retained: set<Artifact>)
      reads world
    {
      forall p :: p in world.receipts && world.receipts[p].artifact !in retained ==>
        world.Removable(world.receipts[p].artifact)
    }

    /** What was gone through and is not retained could be removed. */
    ghost predicate Removed(receipts: map<string, Receipt>, files: map<string, File>, left: set<string>,
                            retained: set<Artifact>) {
      forall p :: p in receipts && p !in left && receipts[p].artifact !in retained ==>
        world.RemovableIn(receipts, files, receipts[p].artifact)
    }

    /** What is left, or cannot be removed, is in place as it was, with its receipt. */
    ghost predicate Kept(receipts: map<string, Receipt>, files: map<string, File>, left: set<string>)
      reads world
    {
      forall p :: p in receipts && (p in left || !world.RemovableIn(receipts, files, receipts[p].artifact)) ==>
        SameAt(p, files, world.files) && p in world.receipts
    }

    lemma KeptNext(receipts: map<string, Receipt>, first: map<string, File>, before: map<string, File>,
                   left: set<string>,
                   path: string, known: set<string>)
      requires path in receipts && receipts[path].artifact.path == path && known - {path} <= world.receipts.Keys
      requires forall p :: p in receipts && (p in left || !world.RemovableIn(receipts, first, receipts[p].artifact)) ==>
                 SameAt(p, first, before) && p in known
      requires world.files == before || world.files == before - {path}
      requires !world.RemovableIn(receipts, first, receipts[path].artifact) ==>
                 world.files == before && path in world.receipts
      ensures Kept(receipts, first, left - {path})
    {
    }

    /** Removes every export that is not retained. Success means that any file in place with identity bytes is
        a retained one; retained receipts are never touched, and more than 64 receipts are refused. */
    method RecoverArtifacts(retained: set<Artifact>) returns (ok: bool)
      requires world.Safe()
      modifies world`files, world`written, world`receipts, world`deletions
      ensures world.Safe() && world.written.Keys <= old(world.written).Keys
      ensures ok ==> forall p :: p in world.written ==> p in world.receipts && world.receipts[p].artifact in retained
      ensures ok ==> forall p :: p in world.receipts ==> world.receipts[p].artifact in retained
      ensures forall p :: p in old(world.receipts) && old(world.receipts)[p].artifact in retained ==>
                p in world.receipts && world.receipts[p] == old(world.receipts)[p]
      ensures world.receipts.Keys <= old(world.receipts).Keys
      ensures forall p :: p in world.receipts ==> world.receipts[p] == old(world.receipts)[p]
      ensures |old(world.receipts).Keys| > MAX_RECEIPTS ==> !ok
      ensures old(world.deletions) <= world.deletions
      ensures NoneRetained(world.deletions, |old(world.deletions)|, old(world.receipts), retained)
      ensures world.alone && ok ==> old(AllRemovable(retained))
      ensures world.alone ==> Kept(old(world.receipts), old(world.files), {})
      ensures world.Steady() ==> (ok <==> old(AllRemovable(retained)) && |old(world.receipts).Keys| <= MAX_RECEIPTS)
    {
      ghost var receipts, files, deletions := world.receipts, world.files, world.deletions;
      var left, count := world.receipts.Keys, 0;
      while left != {}
        invariant Recovering(receipts, files, deletions, left, retained)
                    && world.written.Keys <= old(world.written).Keys
        invariant count <= MAX_RECEIPTS && count + |left| == |receipts.Keys|
        invariant left <= world.receipts.Keys
        invariant forall p :: p in world.receipts && p !in left ==> world.receipts[p].artifact in retained
        invariant world.alone ==> Removed(receipts, files, left, retained)
        decreases |left|
      {
        var path :| path in left;
        if count == MAX_RECEIPTS {
          return false;
        }
        ok := RecoverNext(path, retained, receipts, files, deletions, left);
        if !ok {
          return;
        }
        left, count := left - {path}, count + 1;
      }
      ok := true;
    }

    /** One receipt's turn. */
    method RecoverNext(path: string, retained: set<Artifact>, ghost receipts: map<string, Receipt>,
                       ghost files: map<string, File>,
                       ghost deletions: seq<Deletion>, ghost left: set<string>) returns (ok: bool)
      requires Recovering(receipts, files, deletions, left, retained) && path in left && left <= world.receipts.Keys
      modifies world`files, world`written, world`receipts, world`deletions
      ensures Recovering(receipts, files, deletions, left - {path}, retained)
                && world.written.Keys <= old(world.written).Keys
      ensures ok ==> world.receipts == old(world.receipts)
                     || (world.receipts == old(world.receipts) - {path}
                       && old(world.receipts)[path].artifact !in retained)
      ensures ok && path in world.receipts ==> world.receipts[path].artifact in retained
      ensures world.alone && ok && receipts[path].artifact !in retained ==>
                world.RemovableIn(receipts, files, receipts[path].artifact)
      ensures world.reliable && receipts[path].artifact in retained ==> ok
      ensures world.Steady() && world.RemovableIn(receipts, files, receipts[path].artifact) ==> ok
    {
      var unreadable: bool := *;
      if unreadable && !world.reliable {
        return false;
      }
      var artifact := world.receipts[path].artifact;
      if artifact in retained {
        return true;
      }
      ok := RemoveArtifact(artifact);
      if world.alone {
        KeptNext(receipts, files, old(world.files), left, path, old(world.receipts.Keys));
      }
    }

    /** Where recovery has got to. */
    ghost predicate Recovering(receipts: map<string, Receipt>, files: map<string, File>, deletions: seq<Deletion>,
                               left: set<string>, retained: set<Artifact>)
      reads world
    {
      && world.Safe() && world.receipts.Keys <= receipts.Keys
      && (forall p :: p in world.receipts ==> world.receipts[p] == receipts[p])
      && (forall p :: p in receipts && receipts[p].artifact in retained ==> p in world.receipts)
      && deletions <= world.deletions && NoneRetained(world.deletions, |deletions|, receipts, retained)
      && (world.alone ==> Kept(receipts, files, left))
    }
  }

  /** The later deletions are of files with a receipt that is not retained. */
  ghost predicate NoneRetained(deletions: seq<Deletion>, since: nat, receipts: map<string, Receipt>,
                               retained: set<Artifact>) {
    forall i :: since <= i < |deletions| ==>
      deletions[i].path in receipts && receipts[deletions[i].path].artifact !in retained
  }

  /** A crash between creating the file and its second receipt leaves a file that no later recovery removes and
      that every one fails on, unless it is retained: the first receipt identifies no file. */
  method UnidentifiedFileIsKept(
    hash: string -> string, managed: string -> bool, artifact: Artifact, retained: seq<set<Artifact>>)
    returns (world: World, recovered: seq<bool>)
    requires forall i :: 0 <= i < |retained| ==> artifact !in retained[i]
    ensures |recovered| == |retained| && (forall i :: 0 <= i < |recovered| ==> !recovered[i])
              && artifact.path in world.files
  {
    hide World.Safe;
    world := CrashBeforeIdentity(hash, managed, artifact);
    var exports := new DarwinExports(world);
    recovered := [];
    for i := 0 to |retained|
      invariant fresh(world) && world.Safe() && world.alone && Unidentified(world, artifact)
      invariant |recovered| == i && forall k :: 0 <= k < i ==> !recovered[k]
    {
      var ok := RecoverUnidentified(exports, artifact, retained[i]);
      recovered := recovered + [ok];
    }
  }

  /** The file is in place, and its receipt names no file. */
  ghost predicate Unidentified(world: World, artifact: Artifact)
    reads world
  {
    && artifact.path in world.files && artifact.path in world.receipts
    && world.receipts[artifact.path] == Receipt(artifact, NO_FILE, false)
  }

  /** An export stopped between creating its file and saving the file's identity. */
  method CrashBeforeIdentity(hash: string -> string, managed: string -> bool, artifact: Artifact) returns (world: World)
    ensures fresh(world) && world.Safe() && world.alone && world.reliable && Unidentified(world, artifact)
  {
    hide World.Safe;
    world := new World(hash, managed, true, true);
    var ok := world.SaveReceipt(Receipt(artifact, NO_FILE, false));
    var created := world.CreateFile(artifact.path);
  }

  /** Recovery fails on the file and leaves it, whatever else it does. */
  method RecoverUnidentified(exports: DarwinExports, artifact: Artifact, retained: set<Artifact>) returns (ok: bool)
    requires exports.world.Safe() && exports.world.alone && Unidentified(exports.world, artifact)
               && artifact !in retained
    modifies exports.world
    ensures exports.world.Safe() && !ok && Unidentified(exports.world, artifact)
    ensures exports.world.files[artifact.path] == old(exports.world.files)[artifact.path]
  {
    hide World.Safe;
    ok := exports.RecoverArtifacts(retained);
    assert !exports.world.RemovableIn(old(exports.world.receipts), old(exports.world.files), artifact);
  }
}
