/** Safe file replacement on a file system that may lose power between any two operations.

    `FileSystem.history` records every state the flash has gone through, so a property of all its elements is a property
    of every crash point. */
module SafeFile {
  import opened Common

  type Byte = bv8
  type Name = string
  type Disk = map<Name, seq<Byte>>

  // ---------- The hash

  function Xor(a: Byte, b: Byte): Byte {
    a ^ b
  }

  function XorHash(s: seq<Byte>): Byte {
    if s == [] then 0 else Xor(XorHash(s[..|s| - 1]), s[|s| - 1])
  }

  lemma XorInjective(a: Byte, b: Byte, c: Byte)
    ensures Xor(a, c) == Xor(b, c) ==> a == b
    ensures Xor(c, a) == Xor(c, b) ==> a == b
  {
  }

  lemma {:induction false} HashOfConcat(a: seq<Byte>, b: seq<Byte>)
    ensures XorHash(a + b) == Fold(XorHash(a), b)
  {
    hide Xor;
    if b == [] {
      assert a + b == a;
    } else {
      HashOfConcat(a, b[..|b| - 1]);
      assert (a + b)[..|a + b| - 1] == a + b[..|b| - 1];
    }
  }

  function Fold(h: Byte, s: seq<Byte>): Byte {
    if s == [] then h else Xor(Fold(h, s[..|s| - 1]), s[|s| - 1])
  }

  lemma {:induction false} FoldInjective(g: Byte, h: Byte, s: seq<Byte>)
    requires g != h
    ensures Fold(g, s) != Fold(h, s)
  {
    hide Xor;
    if s != [] {
      FoldInjective(g, h, s[..|s| - 1]);
      XorInjective(Fold(g, s[..|s| - 1]), Fold(h, s[..|s| - 1]), s[|s| - 1]);
    }
  }

  lemma HashMore(s: seq<Byte>, b: Byte)
    ensures XorHash(s + [b]) == Xor(XorHash(s), b)
  {
    assert (s + [b])[..|s|] == s;
  }

  lemma StoredMore(a: seq<Byte>, b: seq<Byte>, c: seq<Byte>)
    ensures a + b + c == a + (b + c)
  {
  }

  /** A single changed byte always changes the hash. */
  lemma OneByteChangesHash(s: seq<Byte>, i: nat, b: Byte)
    requires i < |s| && b != s[i]
    ensures XorHash(s[i := b]) != XorHash(s)
  {
    hide Xor;
    var t := s[i := b];
    assert s == s[..i + 1] + s[i + 1..] && t == t[..i + 1] + s[i + 1..];
    assert s[..i + 1][..i] == s[..i] && t[..i + 1][..i] == s[..i];
    HashOfConcat(s[..i + 1], s[i + 1..]);
    HashOfConcat(t[..i + 1], s[i + 1..]);
    XorInjective(s[i], b, XorHash(s[..i]));
    FoldInjective(XorHash(s[..i + 1]), XorHash(t[..i + 1]), s[i + 1..]);
  }

  /** Two errors can cancel: the hash does not see two bytes change places, nor zero bytes missing at the end. */
  lemma HashMisses(x: Byte, y: Byte, s: seq<Byte>)
    ensures XorHash([x, y]) == XorHash([y, x])
    ensures XorHash(s + [0]) == XorHash(s)
  {
    assert [x, y][..1] == [x] && [y, x][..1] == [y] && [x][..0] == [] && [y][..0] == [];
    assert (s + [0])[..|s|] == s;
  }

  // ---------- The file system

  datatype Arch = NRF52 | ESP32 | STM32WL | OTHER

  /** The STM32WL's file layer appends; the ESP32's and the others' empty the file. The nRF52's is not part of this model,
      so that it may do either. */
  predicate Platform(arch: Arch, truncates: bool) {
    (arch == STM32WL ==> !truncates) && (arch == ESP32 || arch == OTHER ==> truncates)
  }

  /** Files under their names, a number of free bytes, and operations that the environment may make fail. */
  class FileSystem {
    const arch: Arch
    const truncates: bool   // whether a file opened for writing is emptied, or else written to at its end
    var files: Disk
    var free: nat
    ghost var history: seq<Disk>

    ghost predicate Valid()
      reads this
    {
      && history != [] && history[|history| - 1] == files
      && Platform(arch, truncates)
    }

    constructor (arch: Arch, truncates: bool, files: Disk, free: nat)
      requires Platform(arch, truncates)
      ensures Valid() && this.arch == arch && this.truncates == truncates
      ensures this.files == files && this.free == free && history == [files]
    {
      this.arch := arch;
      this.truncates := truncates;
      this.files := files;
      this.free := free;
      history := [files];
    }

    /** Open for writing: the file exists and, if the platform has it so, is empty. */
    method OpenWrite(name: Name, works: bool) returns (done: bool)
      requires Valid()
      modifies this
      ensures Valid() && done == works
      ensures done ==>
                && files == old(files)[name := Opened(old(files), name, truncates)]
                && free == old(free) + Size(old(files), name) - |Opened(old(files), name, truncates)|
                && history == old(history) + [files]
      ensures done ==> files[name] == if truncates || name !in old(files) then [] else old(files)[name]
      ensures !done ==> files == old(files) && free == old(free) && history == old(history)
    {
      done := works;
      if works {
        free := free + Size(files, name) - |Opened(files, name, truncates)|;
        files := files[name := Opened(files, name, truncates)];
        history := history + [files];
      }
    }

    /** Appends what fits. The flash stores `cells` where `data` was meant. */
    method Append(name: Name, data: seq<Byte>, cells: seq<Byte>) returns (count: nat)
      requires Valid() && name in files && |cells| == |data|
      modifies this
      ensures Valid() && count == Min(|data|, old(free))
      ensures files == old(files)[name := old(files)[name] + cells[..count]] && free == old(free) - count
      ensures history == old(history) + [files]
    {
      count := Min(|data|, free);
      files := files[name := files[name] + cells[..count]];
      free := free - count;
      history := history + [files];
    }

    method Remove(name: Name, works: bool) returns (removed: bool)
      requires Valid()
      modifies this
      ensures Valid() && removed == (works && name in old(files))
      ensures removed ==> files == old(files) - {name} && free == old(free) + Size(old(files), name)
                          && history == old(history) + [files]
      ensures !removed ==> files == old(files) && free == old(free) && history == old(history)
    {
      removed := works && name in files;
      if removed {
        free := free + Size(files, name);
        files := files - {name};
        history := history + [files];
      }
    }

    /** One atomic operation of the ESP32's file system. */
    method Rename(from: Name, to: Name, works: bool) returns (renamed: bool)
      requires Valid() && from != to
      modifies this
      ensures Valid() && renamed == (works && from in old(files))
      ensures renamed ==> files == (old(files) - {from})[to := old(files)[from]] && free == old(free) + Size(old(files), to)
                          && history == old(history) + [files]
      ensures !renamed ==> files == old(files) && free == old(free) && history == old(history)
    {
      renamed := works && from in files;
      if renamed {
        free := free + Size(files, to);
        files := (files - {from})[to := files[from]];
        history := history + [files];
      }
    }
  }

  function Tmp(name: Name): Name {
    name + ".tmp"
  }

  /** Either the name still has what it had before, or the complete new contents exist under the name or under its
      temporary name. */
  ghost predicate Recoverable(d: Disk, name: Name, before: Option<seq<Byte>>, complete: seq<Byte>) {
    || Lookup(d, name) == before
    || Lookup(d, name) == Some(complete)
    || Lookup(d, Tmp(name)) == Some(complete)
  }

  /** Holds of every state of the flash from index `from` on. */
  ghost predicate RecoverableSince(fs: FileSystem, from: nat, name: Name, before: Option<seq<Byte>>, complete: seq<Byte>)
    reads fs
  {
    forall i :: from <= i < |fs.history| ==> Recoverable(fs.history[i], name, before, complete)
  }

  // ---------- FSCommon

  /** The outcomes that the environment chooses for the operations of one close(). */
  datatype Faults = Faults(readback: bool, removeOld: bool, openFrom: bool, openTo: bool, removeTmp: bool, rename: bool)

  lemma CopiedMore(base: seq<Byte>, source: seq<Byte>, pos: nat, end: nat, room: nat)
    requires pos <= end <= |source|
    ensures var written := Min(pos, room);
            base + source[..written] + source[pos..end][..Min(end - pos, room - written)] == base + source[..Min(end, room)]
  {
    var written := Min(pos, room);
    assert source[..written] + source[pos..end][..Min(end - pos, room - written)] == source[..Min(end, room)];
  }

  lemma SetTwice(d: Disk, name: Name, a: seq<Byte>, b: seq<Byte>)
    ensures d[name := a][name := b] == d[name := b]
  {
  }

  /** Copies 16 bytes at a time, after what the target holds once opened. A full file system shortens the copy, and nobody
      notices. */
  method CopyFile(fs: FileSystem, from: Name, to: Name, faults: Faults) returns (ok: bool)
    requires fs.Valid() && from != to
    modifies fs
    ensures fs.Valid() && old(fs.history) <= fs.history
    ensures ok == (faults.openFrom && from in old(fs.files) && faults.openTo)
    ensures !ok ==> fs.files == old(fs.files) && fs.free == old(fs.free) && fs.history == old(fs.history)
    ensures ok ==> var source, base := old(fs.files)[from], Opened(old(fs.files), to, fs.truncates);
                   var kept := Min(|source|, old(fs.free) + Size(old(fs.files), to) - |base|);
                   fs.files == old(fs.files)[to := base + source[..kept]]
    ensures forall i :: |old(fs.history)| <= i < |fs.history| ==> Lookup(fs.history[i], from) == Lookup(old(fs.files), from)
  {
    hide Opened;
    if !(faults.openFrom && from in fs.files) {
      return false;
    }
    var source := fs.files[from];
    var done := fs.OpenWrite(to, faults.openTo);
    if !done {
      return false;
    }
    ghost var base := Opened(old(fs.files), to, fs.truncates);
    var pos := 0;
    var room := fs.free;
    assert base + source[..0] == base;
    while pos < |source|
      invariant fs.Valid() && old(fs.history) <= fs.history
      invariant 0 <= pos <= |source|
      invariant fs.free == room - Min(pos, room)
      invariant fs.files == old(fs.files)[to := base + source[..Min(pos, room)]]
      invariant forall i :: |old(fs.history)| <= i < |fs.history| ==> Lookup(fs.history[i], from) == Some(source)
    {
      var cbuffer := source[pos..Min(pos + 16, |source|)];
      CopiedMore(base, source, pos, pos + |cbuffer|, room);
      SetTwice(old(fs.files), to, base + source[..Min(pos, room)], base + source[..Min(pos + |cbuffer|, room)]);
      var count := fs.Append(to, cbuffer, cbuffer);
      pos := pos + |cbuffer|;
    }
    return true;
  }

  /** What a rename of `from` leaves of the target's own contents, and how much of the source then fits behind it. */
  ghost function Base(fs: FileSystem, to: Name): seq<Byte>
    reads fs
  {
    if fs.arch == ESP32 then [] else Opened(fs.files, to, fs.truncates)
  }

  ghost function Kept(fs: FileSystem, from: Name, to: Name): nat
    requires from in fs.files
    reads fs
  {
    if fs.arch == ESP32 then |fs.files[from]|
    else Min(|fs.files[from]|, fs.free + Size(fs.files, to) - |Base(fs, to)|)
  }

  method RenameFile(fs: FileSystem, from: Name, to: Name, faults: Faults) returns (ok: bool)
    requires fs.Valid() && from != to
    modifies fs
    ensures fs.Valid() && old(fs.history) <= fs.history
    ensures ok <==> from in old(fs.files)
                    && if fs.arch == ESP32 then faults.rename else faults.openFrom && faults.openTo && faults.removeTmp
    ensures ok ==>
              var got := old(Base(fs, to)) + old(fs.files)[from][..old(Kept(fs, from, to))];
              fs.files == (old(fs.files) - {from})[to := got]
    ensures from in old(fs.files) ==>
              var source := old(fs.files)[from];
              forall i :: |old(fs.history)| <= i < |fs.history| ==>
                Lookup(fs.history[i], from) == Some(source) || (fs.history[i] == fs.files && ok)
    ensures ok ==> |old(fs.history)| < |fs.history|
    ensures from !in old(fs.files) ==> fs.history == old(fs.history)
  {
    if fs.arch == ESP32 {
      ok := fs.Rename(from, to, faults.rename);
      if ok {
        assert [] + old(fs.files)[from][..|old(fs.files)[from]|] == old(fs.files)[from];
      }
    } else {
      ok := CopyFile(fs, from, to, faults);
      if ok {
        ok := fs.Remove(from, faults.removeTmp);
      }
    }
  }

  // ---------- SafeFile

  /** Whether everything works that close() asks of the file system; `removes` says whether it removes the old file. */
  predicate AllWork(arch: Arch, faults: Faults, removes: bool) {
    && faults.readback && (removes ==> faults.removeOld)
    && if arch == ESP32 then faults.rename else faults.openFrom && faults.openTo && faults.removeTmp
  }

  class Writer {
    const fs: FileSystem
    const filename: Name
    const fullAtomic: bool
    var f: bool           // whether the file is open
    var hash: Byte
    ghost var found: seq<Byte>     // what the file held once opened
    ghost var written: seq<Byte>   // every byte passed to a write
    ghost var stored: seq<Byte>    // every byte the flash took

    /** The file that is written to: the temporary one, except on the nRF52. */
    function Target(): Name {
      if fs.arch == NRF52 then filename else Tmp(filename)
    }

    ghost predicate Valid()
      reads this, fs
    {
      && fs.Valid()
      && hash == XorHash(written)
      && (f ==> Lookup(fs.files, Target()) == Some(found + stored))
    }

    /** Opening for a fully atomic write touches only the temporary file; otherwise the old file goes first. */
    constructor (fs: FileSystem, filename: Name, fullAtomic: bool, openWorks: bool, removeWorks: bool)
      requires fs.Valid()
      modifies fs
      ensures Valid() && this.fs == fs && this.filename == filename && this.fullAtomic == fullAtomic
      ensures f == openWorks && written == [] && stored == []
      ensures old(fs.history) <= fs.history
      ensures fullAtomic && fs.arch != NRF52 ==>
                forall i :: |old(fs.history)| <= i < |fs.history| ==>
                  Lookup(fs.history[i], filename) == Lookup(old(fs.files), filename)
      ensures fs.arch != NRF52 ==> found == Opened(old(fs.files), Tmp(filename), fs.truncates)
      ensures fullAtomic && fs.arch != NRF52 && openWorks ==>
                && fs.free == old(fs.free) + Size(old(fs.files), Tmp(filename)) - |found|
                && fs.files == old(fs.files)[Tmp(filename) := found]
      ensures (!fullAtomic || fs.arch == NRF52) && filename in old(fs.files) && removeWorks ==>
                exists i :: |old(fs.history)| <= i < |fs.history| && filename !in fs.history[i]
    {
      this.fs := fs;
      this.filename := filename;
      this.fullAtomic := fullAtomic;
      f, hash, written, stored := openWorks, 0, [], [];
      new;
      if fs.arch == NRF52 || !fullAtomic {
        var removed := fs.Remove(filename, removeWorks);
        assert removed ==> filename !in fs.history[|fs.history| - 1];
      }
      ghost var middle := fs.history;
      found := Opened(fs.files, Target(), fs.truncates);
      var done := fs.OpenWrite(Target(), openWorks);
      assert middle <= fs.history;
      assert found + [] == found;
    }

    method WriteByte(ch: Byte, cell: Byte) returns (count: nat)
      requires Valid()
      modifies this, fs
      ensures Valid() && f == old(f) && found == old(found)
      ensures Wrote([ch], [cell], count, old(f), old(written), old(stored), old(fs.files), old(fs.free), old(fs.history))
    {
      if !f {
        return 0;
      }
      hide XorHash, Xor;
      HashMore(written, ch);
      hash := Xor(hash, ch);
      written := written + [ch];
      count := fs.Append(Target(), [ch], [cell]);
      StoredMore(found, stored, [cell][..count]);
      stored := stored + [cell][..count];
    }

    /** The loop over the buffer. */
    method HashAll(buffer: seq<Byte>)
      requires hash == XorHash(written)
      modifies this`hash
      ensures hash == XorHash(written + buffer)
    {
      hide XorHash, Xor;
      assert written + buffer[..0] == written;
      for i := 0 to |buffer|
        invariant hash == XorHash(written + buffer[..i])
      {
        HashMore(written + buffer[..i], buffer[i]);
        assert written + buffer[..i + 1] == written + buffer[..i] + [buffer[i]];
        hash := Xor(hash, buffer[i]);
      }
      assert buffer[..|buffer|] == buffer;
    }

    method Write(buffer: seq<Byte>, cells: seq<Byte>) returns (count: nat)
      requires Valid() && |cells| == |buffer|
      modifies this, fs
      ensures Valid() && f == old(f) && found == old(found)
      ensures Wrote(buffer, cells, count, old(f), old(written), old(stored), old(fs.files), old(fs.free), old(fs.history))
    {
      if !f {
        return 0;
      }
      HashAll(buffer);
      written := written + buffer;
      count := fs.Append(Target(), buffer, cells);
      StoredMore(found, stored, cells[..count]);
      stored := stored + cells[..count];
    }

    /** What a write does: nothing on a file that is not open; otherwise as many cells as fit are appended. */
    ghost predicate Wrote(buffer: seq<Byte>, cells: seq<Byte>, count: nat, wasOpen: bool, written0: seq<Byte>,
                          stored0: seq<Byte>, files0: Disk, free0: nat, history0: seq<Disk>)
      requires |cells| == |buffer|
      reads this, fs
    {
      if !wasOpen then count == 0 && written == written0 && fs.files == files0 && fs.history == history0
      else
        && count == Min(|buffer|, free0) && written == written0 + buffer && stored == stored0 + cells[..count]
        && fs.free == free0 - count && fs.files == files0[Target() := found + stored] && fs.history == history0 + [fs.files]
    }

    method TestReadback(faults: Faults) returns (ok: bool)
      requires Valid()
      ensures ok == (faults.readback && Tmp(filename) in fs.files && XorHash(fs.files[Tmp(filename)]) == hash)
    {
      if !(faults.readback && Tmp(filename) in fs.files) {
        return false;
      }
      var content := fs.files[Tmp(filename)];
      var testHash: Byte := 0;
      var i := 0;
      while i < |content|
        invariant 0 <= i <= |content| && testHash == XorHash(content[..i])
      {
        assert content[..i + 1][..i] == content[..i];
        testHash := Xor(testHash, content[i]);
        i := i + 1;
      }
      assert content[..i] == content;
      return testHash == hash;
    }

    /** The contents of the temporary file. */
    ghost function Content(): seq<Byte>
      reads this
    {
      found + stored
    }

    /** What will stand in front of the new contents: nothing, but for an old file that is still there when a copy is
        appended to it. */
    ghost function Prior(): seq<Byte>
      reads this, fs
    {
      if fullAtomic then [] else Base(fs, filename)
    }

    /** The bytes of the temporary file that the name gets. */
    ghost function KeptBytes(): nat
      reads this, fs
      requires Tmp(filename) in fs.files
    {
      var n := |fs.files[Tmp(filename)]|;
      if fs.arch == ESP32 then n else Min(n, fs.free + Size(fs.files, filename) - |Prior()|)
    }

    /** The second half of close(): the old file goes, and the temporary one takes its name. */
    method Replace(faults: Faults) returns (ok: bool)
      requires fs.Valid() && Lookup(fs.files, Tmp(filename)) == Some(Content())
      modifies fs
      ensures fs.Valid() && old(fs.history) <= fs.history
      ensures faults.readback ==> (ok <==> AllWork(fs.arch, faults, fullAtomic && filename in old(fs.files)))
      ensures ok ==>
                fs.files == (old(fs.files) - {Tmp(filename)})[filename := old(Prior()) + Content()[..old(KeptBytes())]]
      ensures RecoverableSince(fs, |old(fs.history)|, filename, Lookup(old(fs.files), filename), Content())
        <==> (ok ==> Lookup(fs.files, filename) == Lookup(old(fs.files), filename)
                     || Lookup(fs.files, filename) == Some(Content()))
    {
      hide RecoverableSince, Recoverable, XorHash;
      ghost var before := fs.history;
      ghost var known := Lookup(fs.files, filename);
      RecoveredYet(fs, filename, known, Content());
      if fullAtomic && filename in fs.files {
        var removed := fs.Remove(filename, faults.removeOld);
        if !removed {
          RecoveredYet(fs, filename, known, Content());
          return false;
        }
      }
      assert Base(fs, filename) == old(Prior()) && Kept(fs, Tmp(filename), filename) == old(KeptBytes());
      assert |fs.history| <= |before| + 1;
      ghost var middle := fs.history;
      ok := RenameFile(fs, Tmp(filename), filename, faults);
      Recovered(fs, |before|, |middle|, filename, known, Content(), ok);
    }

    /** On the nRF52 nothing is checked and nothing is left to do. Elsewhere the temporary file is read back and then
        takes the place of the old one. */
    method Close(faults: Faults) returns (ok: bool)
      requires Valid()
      modifies this, fs
      ensures fs.Valid() && !f && old(fs.history) <= fs.history
      ensures !old(f) || fs.arch == NRF52 ==> ok == old(f) && fs.files == old(fs.files) && fs.history == old(fs.history)
      ensures fs.arch != NRF52 ==>
                (ok <==> old(f) && XorHash(old(Content())) == XorHash(old(written))
                         && AllWork(fs.arch, faults, fullAtomic && filename in old(fs.files)))
      ensures ok && fs.arch != NRF52 ==>
                && Tmp(filename) in old(fs.files)
                && fs.files
                   == (old(fs.files) - {Tmp(filename)})[filename := old(Prior()) + old(Content())[..old(KeptBytes())]]
      ensures old(f) && fs.arch != NRF52 && XorHash(old(Content())) != XorHash(old(written)) ==>
                fs.files == old(fs.files) && fs.history == old(fs.history)
      ensures old(f) && fs.arch != NRF52 ==>
                (RecoverableSince(fs, |old(fs.history)|, filename, Lookup(old(fs.files), filename), old(Content()))
                 <==> (ok ==> Lookup(fs.files, filename) == Lookup(old(fs.files), filename)
                              || Lookup(fs.files, filename) == Some(old(Content()))))
    {
      hide RecoverableSince, XorHash;
      RecoveredYet(fs, filename, Lookup(fs.files, filename), Content());
      if !f {
        return false;
      }
      f := false;
      if fs.arch == NRF52 {
        return true;
      }
      var same := TestReadback(faults);
      RecoveredYet(fs, filename, Lookup(fs.files, filename), Content());
      if !same {
        return false;
      }
      ok := Replace(faults);
    }
  }

  lemma RecoveredYet(fs: FileSystem, name: Name, before: Option<seq<Byte>>, complete: seq<Byte>)
    ensures RecoverableSince(fs, |fs.history|, name, before, complete)
  {
  }

  /** The old file may go in one step; from then on the temporary file is there, until the last state of a success. That one
      is recoverable only if the name has what it had, or everything. */
  lemma Recovered(fs: FileSystem, from: nat, middle: nat, name: Name, before: Option<seq<Byte>>, complete: seq<Byte>,
                  ok: bool)
    requires fs.Valid() && from <= middle <= |fs.history| && middle <= from + 1
    requires middle == from + 1 ==> Lookup(fs.history[from], Tmp(name)) == Some(complete)
    requires forall i :: middle <= i < |fs.history| ==>
               Lookup(fs.history[i], Tmp(name)) == Some(complete) || (fs.history[i] == fs.files && ok)
    requires ok ==> middle < |fs.history| && Tmp(name) !in fs.files
    ensures RecoverableSince(fs, from, name, before, complete)
      <==> (ok ==> Lookup(fs.files, name) == before || Lookup(fs.files, name) == Some(complete))
  {
    if ok {
      assert fs.history[|fs.history| - 1] == fs.files;
    }
  }

  // ---------- A whole save: open, any number of writes, close

  function Flatten(parts: seq<seq<Byte>>): seq<Byte> {
    if parts == [] then [] else Flatten(parts[..|parts| - 1]) + parts[|parts| - 1]
  }

  lemma {:induction false} FlattenSameLength(a: seq<seq<Byte>>, b: seq<seq<Byte>>)
    requires |a| == |b| && forall i :: 0 <= i < |a| ==> |a[i]| == |b[i]|
    ensures |Flatten(a)| == |Flatten(b)|
  {
    if a != [] {
      FlattenSameLength(a[..|a| - 1], b[..|b| - 1]);
    }
  }

  /** What the temporary file holds when everything has been written: the cells that fitted. */
  function Fitting(cells: seq<seq<Byte>>, room: nat): seq<Byte> {
    Flatten(cells)[..Min(|Flatten(cells)|, room)]
  }

  lemma FlattenMore(parts: seq<seq<Byte>>, i: nat)
    requires i < |parts|
    ensures Flatten(parts[..i + 1]) == Flatten(parts[..i]) + parts[i]
  {
    assert parts[..i + 1][..i] == parts[..i];
  }

  lemma FittingMore(cells: seq<seq<Byte>>, i: nat, room: nat)
    requires i < |cells|
    ensures var kept := |Fitting(cells[..i], room)|;
            Fitting(cells[..i + 1], room) == Fitting(cells[..i], room) + cells[i][..Min(|cells[i]|, room - kept)]
  {
    FlattenMore(cells, i);
  }

  /** From index `from` on, every state of the flash has the same under the name. */
  predicate Throughout(history: seq<Disk>, from: nat, name: Name, before: Option<seq<Byte>>) {
    forall k :: from <= k < |history| ==> Lookup(history[k], name) == before
  }

  lemma ThroughoutMore(history: seq<Disk>, from: nat, d: Disk, name: Name, before: Option<seq<Byte>>)
    requires Throughout(history, from, name, before) && Lookup(d, name) == before
    ensures Throughout(history + [d], from, name, before)
  {
  }

  method WriteAll(w: Writer, parts: seq<seq<Byte>>, cells: seq<seq<Byte>>, ghost room: nat)
    requires w.Valid() && w.f && w.fs.arch != NRF52 && w.written == [] && w.stored == [] && w.fs.free == room
    requires |parts| == |cells| && forall i :: 0 <= i < |parts| ==> |parts[i]| == |cells[i]|
    modifies w, w.fs
    ensures w.Valid() && w.f && old(w.fs.history) <= w.fs.history && w.found == old(w.found)
    ensures w.written == Flatten(parts) && w.stored == Fitting(cells, room)
    ensures w.fs.free == room - |w.stored|
    ensures w.fs.files == old(w.fs.files)[Tmp(w.filename) := w.Content()]
    ensures Throughout(w.fs.history, |old(w.fs.history)|, w.filename, Lookup(old(w.fs.files), w.filename))
  {
    assert Fitting(cells[..0], room) == [] && Flatten(parts[..0]) == [];
    assert Throughout(w.fs.history, |w.fs.history|, w.filename, Lookup(w.fs.files, w.filename));
    hide XorHash, Xor, Flatten, Fitting, Throughout;
    var i := 0;
    while i < |parts|
      invariant w.Valid() && w.f && w.found == old(w.found)
      invariant 0 <= i <= |parts| && old(w.fs.history) <= w.fs.history
      invariant w.written == Flatten(parts[..i]) && w.stored == Fitting(cells[..i], room)
      invariant w.fs.free == room - |w.stored|
      invariant w.fs.files == old(w.fs.files)[Tmp(w.filename) := w.Content()]
      invariant Throughout(w.fs.history, |old(w.fs.history)|, w.filename, Lookup(old(w.fs.files), w.filename))
    {
      FlattenMore(parts, i);
      FittingMore(cells, i, room);
      ghost var history := w.fs.history;
      var count := w.Write(parts[i], cells[i]);
      ThroughoutMore(history, |old(w.fs.history)|, w.fs.files, w.filename, Lookup(old(w.fs.files), w.filename));
      i := i + 1;
    }
    assert parts[..i] == parts && cells[..i] == cells;
  }

  /** What a save finds in the temporary file once it has opened it: nothing, but for a left-over that is appended to. */
  ghost function LeftOver(fs: FileSystem, filename: Name): seq<Byte>
    reads fs
  {
    Opened(fs.files, Tmp(filename), fs.truncates)
  }

  /** The bytes that can still be written to it. */
  ghost function Room(fs: FileSystem, filename: Name): nat
    reads fs
  {
    fs.free + Size(fs.files, Tmp(filename)) - |LeftOver(fs, filename)|
  }

  /** Whether a copy of the temporary file fits next to it once `count` bytes are written and the old file is gone. */
  ghost predicate CopyFits(fs: FileSystem, filename: Name, count: nat)
    requires count <= Room(fs, filename)
    reads fs
  {
    fs.arch == ESP32 || |LeftOver(fs, filename)| + count <= Room(fs, filename) - count + Size(fs.files, filename)
  }

  /** The temporary file is written in full and only then replaces the old one. `parts` is what the caller writes, `cells`
      what the flash stores for it. */
  method SaveAtomically(fs: FileSystem, filename: Name, parts: seq<seq<Byte>>, cells: seq<seq<Byte>>, openWorks: bool,
                        faults: Faults)
    returns (ok: bool, ghost stored: seq<Byte>)
    requires fs.Valid() && fs.arch != NRF52
    requires |parts| == |cells| && forall i :: 0 <= i < |parts| ==> |parts[i]| == |cells[i]|
    modifies fs
    ensures fs.Valid() && old(fs.history) <= fs.history
    ensures stored == Fitting(cells, old(Room(fs, filename)))
    // crash safety at every point, exactly if the save fails, or a copy fits, or the name ends up with what it had
    ensures RecoverableSince(fs, |old(fs.history)|, filename, Lookup(old(fs.files), filename),
                             old(LeftOver(fs, filename)) + stored)
      <==> (ok ==> old(CopyFits(fs, filename, |stored|)) || Lookup(fs.files, filename) == Lookup(old(fs.files), filename))
    // success means that all that was asked of the file system worked, and the hash of what the file holds is right
    ensures ok <==> openWorks && AllWork(fs.arch, faults, filename in old(fs.files))
                    && XorHash(old(LeftOver(fs, filename)) + stored) == XorHash(Flatten(parts))
    // and then the name has the left-over and the stored bytes, as far as a copy of them fits
    ensures ok ==>
              && Tmp(filename) !in fs.files
              && filename in fs.files && fs.files[filename] <= old(LeftOver(fs, filename)) + stored
              && (fs.files[filename] == old(LeftOver(fs, filename)) + stored <==> old(CopyFits(fs, filename, |stored|)))
    // a hash that does not match leaves the old file alone
    ensures XorHash(old(LeftOver(fs, filename)) + stored) != XorHash(Flatten(parts)) ==>
              Lookup(fs.files, filename) == Lookup(old(fs.files), filename)
  {
    hide XorHash, Flatten, Fitting, RecoverableSince, AllWork, Opened;
    FittingWithin(cells, Room(fs, filename));
    RecoveredYet(fs, filename, Lookup(fs.files, filename), LeftOver(fs, filename) + Fitting(cells, Room(fs, filename)));
    ghost var room := Room(fs, filename);
    ghost var start := fs.history;
    ghost var before := Lookup(fs.files, filename);
    ghost var found := LeftOver(fs, filename);
    stored := Fitting(cells, room);
    var w := new Writer(fs, filename, true, openWorks, true);
    if !openWorks {
      ok := w.Close(faults);
      RecoveredYet(fs, filename, before, found + stored);
      UntouchedBefore(fs, |start|, fs.history, filename, before, found + stored);
      return;
    }
    WriteAll(w, parts, cells, room);
    ghost var middle := fs.history;
    ok := w.Close(faults);
    AllOfIt(found + stored);
    UntouchedBefore(fs, |start|, middle, filename, before, found + stored);
  }

  /** What was written to the temporary file, before the last part of a save, left the file itself alone. */
  lemma UntouchedBefore(fs: FileSystem, from: nat, middle: seq<Disk>, name: Name, before: Option<seq<Byte>>,
                        complete: seq<Byte>)
    requires from <= |middle| && middle <= fs.history
    requires forall i :: from <= i < |middle| ==> Lookup(middle[i], name) == before
    ensures RecoverableSince(fs, from, name, before, complete) <==> RecoverableSince(fs, |middle|, name, before, complete)
  {
    assert forall i :: from <= i < |middle| ==> fs.history[i] == middle[i];
  }

  lemma AllOfIt(s: seq<Byte>)
    ensures s[..|s|] == s && forall n :: 0 <= n <= |s| ==> [] + s[..n] == s[..n]
  {
  }

  lemma FittingWithin(cells: seq<seq<Byte>>, room: nat)
    ensures |Fitting(cells, room)| <= room
    ensures Fitting(cells, room) == Flatten(cells)[..Min(|Flatten(cells)|, room)]
    ensures |Flatten(cells)| <= room ==> Fitting(cells, room) == Flatten(cells)
  {
  }

  /** Bytes in front are seen by the hash exactly if their own hash is not zero; then one changed byte is seen, too. */
  lemma HashWithLeftOver(found: seq<Byte>, s: seq<Byte>)
    ensures XorHash(found + s) == XorHash(s) <==> XorHash(found) == 0
  {
    hide Xor;
    HashOfConcat(found, s);
    HashOfConcat([], s);
    assert [] + s == s;
    if XorHash(found) != 0 {
      FoldInjective(XorHash(found), 0, s);
    }
  }

  /** That many bytes can be written, and a copy of the file then fits. */
  ghost predicate Fits(fs: FileSystem, filename: Name, count: nat)
    reads fs
  {
    count <= Room(fs, filename) && CopyFits(fs, filename, count)
  }

  /** With at most one byte changed by the flash. If everything fits, success means that the name holds exactly the written
      bytes if and only if there was no left-over that the platform appends to; if there was none, if and only if everything
      fits. A changed byte is noticed and leaves the old file intact, unless bytes are missing, or a left-over's own hash
      makes up for it. */
  method SaveWithOneBadCell(fs: FileSystem, filename: Name, parts: seq<seq<Byte>>, cells: seq<seq<Byte>>, openWorks: bool,
                            faults: Faults, ghost bad: nat)
    returns (ok: bool)
    requires fs.Valid() && fs.arch != NRF52
    requires |parts| == |cells| && forall i :: 0 <= i < |parts| ==> |parts[i]| == |cells[i]|
    requires |Flatten(cells)| == |Flatten(parts)|
    requires forall i :: 0 <= i < |Flatten(parts)| && i != bad ==> Flatten(cells)[i] == Flatten(parts)[i]
    modifies fs
    ensures ok && old(Fits(fs, filename, |Flatten(parts)|)) ==>
              && Lookup(fs.files, filename) == Some(old(LeftOver(fs, filename)) + Flatten(cells))
              && (Lookup(fs.files, filename) == Some(Flatten(parts)) <==> old(LeftOver(fs, filename)) == [])
    ensures ok && old(LeftOver(fs, filename)) == [] ==>
              (Lookup(fs.files, filename) == Some(Flatten(parts)) <==> old(Fits(fs, filename, |Flatten(parts)|)))
    ensures old(LeftOver(fs, filename)) == [] <==>
              fs.truncates || Tmp(filename) !in old(fs.files) || old(fs.files)[Tmp(filename)] == []
    ensures bad < |Flatten(parts)| && Flatten(cells)[bad] != Flatten(parts)[bad]
            && |Flatten(parts)| <= old(Room(fs, filename)) && XorHash(old(LeftOver(fs, filename))) == 0 ==>
              !ok && Lookup(fs.files, filename) == Lookup(old(fs.files), filename)
    ensures Flatten(cells) == Flatten(parts) && |Flatten(parts)| <= old(Room(fs, filename)) ==>
              (ok <==> openWorks && AllWork(fs.arch, faults, filename in old(fs.files))
                       && XorHash(old(LeftOver(fs, filename))) == 0)
    ensures old(Fits(fs, filename, |Flatten(parts)|)) ==>
              RecoverableSince(fs, |old(fs.history)|, filename, Lookup(old(fs.files), filename),
                               old(LeftOver(fs, filename)) + Flatten(cells))
  {
    hide XorHash, Flatten, Fitting;
    FittingWithin(cells, Room(fs, filename));
    ghost var found := LeftOver(fs, filename);
    ghost var stored;
    ok, stored := SaveAtomically(fs, filename, parts, cells, openWorks, faults);
    assert stored == Flatten(cells)[..Min(|Flatten(cells)|, old(Room(fs, filename)))];
    if |Flatten(parts)| <= old(Room(fs, filename)) {
      assert stored == Flatten(cells);
      HashWithLeftOver(found, stored);
      if bad < |stored| && stored[bad] != Flatten(parts)[bad] {
        OneByteChangesHash(Flatten(parts), bad, stored[bad]);
        assert Flatten(parts)[bad := stored[bad]] == stored;
      } else {
        assert stored == Flatten(parts);
      }
    }
    assert |found + stored| == |found| + |stored|;
    assert [] + stored == stored;
    if ok && found == [] {
      assert XorHash(found + stored) == XorHash(stored);
    }
  }

  lemma XorRegroup(a: Byte, b: Byte, c: Byte)
    ensures Xor(Xor(a, b), c) == Xor(a, Xor(b, c)) && Xor(a, 0) == a
  {
  }

  lemma {:induction false} FoldIsXor(h: Byte, s: seq<Byte>)
    ensures Fold(h, s) == Xor(h, XorHash(s))
  {
    hide Xor;
    XorRegroup(h, 0, 0);
    if s != [] {
      FoldIsXor(h, s[..|s| - 1]);
      XorRegroup(h, XorHash(s[..|s| - 1]), s[|s| - 1]);
    }
  }

  /** Bytes missing at the end go unnoticed exactly if their own hash is zero. */
  lemma HashOfMissing(s: seq<Byte>, n: nat)
    requires n <= |s|
    ensures XorHash(s[..n]) == XorHash(s) <==> XorHash(s[n..]) == 0
  {
    hide Xor, XorHash, Fold;
    assert s == s[..n] + s[n..];
    HashOfConcat(s[..n], s[n..]);
    FoldIsXor(XorHash(s[..n]), s[n..]);
    XorRegroup(XorHash(s[..n]), 0, 0);
    XorInjective(XorHash(s[n..]), 0, XorHash(s[..n]));
  }

  /** On a flash that stores what it is given, as far as there is room, and with no left-over to append to: success means
      that the name holds exactly the written bytes if and only if they fit, and a copy of them fits. The program does not
      look at how many bytes a write took; the missing ones go unnoticed if their hash is zero. */
  method SaveAsRoomAllows(fs: FileSystem, filename: Name, parts: seq<seq<Byte>>, openWorks: bool, faults: Faults)
    returns (ok: bool)
    requires fs.Valid() && fs.arch != NRF52 && LeftOver(fs, filename) == []
    modifies fs
    ensures var written := Flatten(parts);
            ok ==> (Lookup(fs.files, filename) == Some(written)
                    <==> old(Fits(fs, filename, |written|)))
    ensures var written := Flatten(parts);
            ok <==> openWorks && AllWork(fs.arch, faults, filename in old(fs.files))
                    && XorHash(written[Min(|written|, old(Room(fs, filename)))..]) == 0
  {
    hide XorHash, Flatten, AllWork, Opened, RecoverableSince;
    ghost var written, room := Flatten(parts), Room(fs, filename);
    FittingWithin(parts, room);
    HashOfMissing(written, Min(|written|, room));
    ghost var stored;
    ok, stored := SaveAtomically(fs, filename, parts, parts, openWorks, faults);
    assert stored == written[..Min(|written|, room)];
    assert [] + stored == stored;
  }

  // ---------- Three saves that go wrong unnoticed

  const ALL_WORK := Faults(true, true, true, true, true, true)

  lemma OneWrite(x: Byte, room: nat)
    requires room > 0
    ensures Flatten([[x]]) == [x] && Fitting([[x]], room) == [x] && XorHash([x]) == x
  {
    assert [[x]][..0] == [];
    assert [x][..0] == [];
    assert Flatten([[x]]) == [x];
    XorOfZero(x);
  }

  lemma XorOfZero(x: Byte)
    ensures Xor(0, x) == x
  {
  }

  lemma HashOfPair(x: Byte)
    ensures XorHash([x, x]) == 0
  {
    assert [x, x][..1] == [x] && [x][..0] == [];
    XorOfZero(x);
    XorOfSame(x);
    assert XorHash([x]) == x;
  }

  lemma XorOfSame(x: Byte)
    ensures Xor(x, x) == 0
  {
  }

  /** On a platform that appends, after a save that a crash cut short: its bytes come to stand in front of the new ones,
      and neither the old nor the new contents are left. */
  method SaveAfterCrash() returns (fs: FileSystem, ok: bool)
    ensures fs.arch == STM32WL && ok && Lookup(fs.files, "p") == Some([7, 7, 1]) && "p.tmp" !in fs.files
  {
    hide XorHash, Flatten, Fitting;
    fs := new FileSystem(STM32WL, false, map["p" := [5], "p.tmp" := [7, 7]], 100);
    assert Tmp("p") == "p.tmp" && LeftOver(fs, "p") == [7, 7];
    OneWrite(1, 100);
    HashOfPair(7);
    HashWithLeftOver([7, 7], [1]);
    assert CopyFits(fs, "p", 1);
    ghost var stored;
    ok, stored := SaveAtomically(fs, "p", [[1]], [[1]], true, ALL_WORK);
    assert [7, 7] + stored == [7, 7, 1];
  }

  /** Where a rename copies, on a file system with no room for the copy: success, and an empty file. */
  method SaveWithoutRoom() returns (fs: FileSystem, ok: bool)
    ensures fs.arch == OTHER && ok && Lookup(fs.files, "p") == Some([]) && "p.tmp" !in fs.files
  {
    hide XorHash, Flatten, Fitting;
    fs := new FileSystem(OTHER, true, map[], 1);
    assert Tmp("p") == "p.tmp" && LeftOver(fs, "p") == [];
    OneWrite(5, 1);
    assert !CopyFits(fs, "p", 1);
    ghost var stored;
    ok, stored := SaveAtomically(fs, "p", [[5]], [[5]], true, ALL_WORK);
    assert [] + stored == [5];
    ghost var content := fs.files["p"];
    assert content <= [5] && content != [5];
  }

  /** With no room at all, and a rename that does not copy: the zero byte that is missing goes unnoticed, and the old
      contents are gone. */
  method SaveOnFullFlash() returns (fs: FileSystem, ok: bool)
    ensures fs.arch == ESP32 && ok && Lookup(fs.files, "p") == Some([]) && "p.tmp" !in fs.files
  {
    hide Flatten, Fitting;
    fs := new FileSystem(ESP32, true, map["p" := [5]], 0);
    assert Tmp("p") == "p.tmp" && LeftOver(fs, "p") == [];
    OneWrite(0, 1);
    FittingWithin([[0]], 0);
    ghost var stored;
    ok, stored := SaveAtomically(fs, "p", [[0]], [[0]], true, ALL_WORK);
    assert [] + stored == [];
  }
}
