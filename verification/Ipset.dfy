/**
 * The ipset swap of the strategy tester (tester.rs): for the time of a test the
 * address list is emptied, with a backup beside it, and put back afterwards.
 *
 * A crash may come between any two file operations, and every operation may
 * fail; a copy or write that fails leaves its target as it was. The disk keeps
 * every state it went through, so "at any moment" is a statement about `past`.
 */
module Ipset {
  import opened Wrappers
  import opened Bytes

  type Path = string

  /** `u8::is_ascii_whitespace`. */
  predicate IsAsciiSpace(b: byte)
  {
    b == 0x20 || b == 0x09 || b == 0x0a || b == 0x0c || b == 0x0d
  }

  /** White space here is space, tab, line feed, form feed and carriage return. */
  lemma SpacesAre(b: byte)
    ensures IsAsciiSpace(b) <==> exists i :: 0 <= i < 5 && b as int == " \t\n\U{0C}\r"[i] as int
  {
    var spaces := " \t\n\U{0C}\r";
    assert spaces[0] as int == 0x20 && spaces[1] as int == 0x09 && spaces[2] as int == 0x0a;
    assert spaces[3] as int == 0x0c && spaces[4] as int == 0x0d;
  }

  predicate Blank(content: Bytes)
  {
    forall i :: 0 <= i < |content| ==> IsAsciiSpace(content[i])
  }

  /** Blank is what consists of white space only. */
  lemma BlankIs(a: Bytes, b: byte, c: Bytes)
    ensures Blank([]) && (Blank(a + c) <==> Blank(a) && Blank(c)) && (Blank([b]) <==> IsAsciiSpace(b))
  {
    var both := a + c;
    assert forall i :: 0 <= i < |a| ==> both[i] == a[i];
    assert forall i :: 0 <= i < |c| ==> both[|a| + i] == c[i];
    assert [b][0] == b;
  }

  /** A list and its `.txt.test-backup`. */
  datatype Files = Files(live: Option<Bytes>, backup: Option<Bytes>)

  predicate Holds(f: Option<Bytes>, content: Bytes) { f == Some(content) }

  predicate LiveIsBlank(f: Files) { f.live.None? || Blank(f.live.value) }

  /**
   * The list is not lost: live has it, or live is blank and the backup has it.
   * Where the existence probe may fail, a live list must not sit beside a
   * backup of some other list.
   */
  predicate Safe(f: Files, list: Bytes, flakyProbes: bool)
  {
    || (Holds(f.live, list) && (flakyProbes ==> f.backup.None? || Holds(f.backup, list)))
    || (LiveIsBlank(f) && Holds(f.backup, list))
  }

  type Snapshot = map<Path, Files>

  predicate AllSafe(s: Snapshot, lists: map<Path, Bytes>, flakyProbes: bool)
  {
    forall p :: p in lists ==> p in s && Safe(s[p], lists[p], flakyProbes)
  }

  /**
   * The file system. With `failures` any operation may fail; with
   * `flakyProbes` an existence probe may miss a file that is there.
   */
  class Disk {
    const failures: bool
    const flakyProbes: bool
    var files: Snapshot
    var past: seq<Snapshot>
    /** How many writes and copies were tried. */
    ghost var tries: nat

    constructor (files: Snapshot, failures: bool, flakyProbes: bool)
      ensures this.files == files && this.failures == failures && this.flakyProbes == flakyProbes
      ensures past == [files]
    {
      this.files, this.failures, this.flakyProbes, past, tries := files, failures, flakyProbes, [files], 0;
    }

    /** Every state so far kept every list. */
    ghost predicate NeverLost(lists: map<Path, Bytes>)
      reads this
    {
      && past != [] && past[|past| - 1] == files
      && forall i :: 0 <= i < |past| ==> past[i].Keys == files.Keys && AllSafe(past[i], lists, flakyProbes)
    }

    method Succeeds() returns (ok: bool)
      ensures !failures ==> ok
    {
      ok := true;
      if failures {
        ok := *;
      }
    }

    /** How the operations of one heal will turn out. */
    method AnyLuck() returns (luck: Luck)
      ensures Possible(luck, failures, flakyProbes)
    {
      luck := ALL_WELL;
      if failures {
        var readable, copies, removes := *, *, *;
        luck := luck.(readsLive := readable, copies := copies, removes := removes);
      }
      if flakyProbes {
        var seesBackup, seesLive := *, *;
        luck := luck.(seesBackup := seesBackup, seesLive := seesLive);
      }
    }

    /** `is_file`, which takes every error for "no". */
    method IsFile(f: Option<Bytes>) returns (yes: bool)
      ensures yes ==> f.Some?
      ensures !flakyProbes ==> yes == f.Some?
    {
      yes := f.Some?;
      if flakyProbes && yes {
        yes := *;
      }
    }

    method ReadLive(p: Path) returns (r: Option<Bytes>)
      requires p in files
      ensures r.Some? ==> r == files[p].live
      ensures !failures ==> r == files[p].live
    {
      var ok := Succeeds();
      r := if ok then files[p].live else None;
    }

    /** One mutation of one pair of files: all of it happens, or nothing. */
    method Put(p: Path, f: Files, ghost lists: map<Path, Bytes>) returns (ok: bool)
      requires p in files && NeverLost(lists)
      requires p in lists ==> Safe(f, lists[p], flakyProbes)
      modifies this
      ensures NeverLost(lists) && (!failures ==> ok)
      ensures files == (if ok then old(files)[p := f] else old(files)) && tries == old(tries) + 1
    {
      ok := Succeeds();
      tries := tries + 1;
      if ok {
        files := files[p := f];
        past := past + [files];
      }
    }

    /** A mutation that did succeed. */
    method Record(p: Path, f: Files, ghost lists: map<Path, Bytes>)
      requires p in files && NeverLost(lists)
      requires p in lists ==> Safe(f, lists[p], flakyProbes)
      modifies this
      ensures NeverLost(lists) && files == old(files)[p := f]
    {
      files := files[p := f];
      past := past + [files];
    }

    /** The machine stops at some moment of its past; the next start finds that state. */
    method CrashAt(moment: nat, ghost lists: map<Path, Bytes>)
      requires NeverLost(lists) && moment < |past|
      modifies this
      ensures NeverLost(lists) && files == old(past)[moment]
    {
      files := past[moment];
      past := past + [files];
    }
  }

  /** Every protected list is a real one. */
  predicate RealLists(lists: map<Path, Bytes>)
  {
    forall p :: p in lists ==> !Blank(lists[p])
  }

  // -------------------------------------------------------------------- heal

  /** How the operations inside one heal turn out. */
  datatype Luck = Luck(seesBackup: bool, seesLive: bool, readsLive: bool, copies: bool, removes: bool)

  const ALL_WELL := Luck(true, true, true, true, true)

  predicate Possible(luck: Luck, failures: bool, flakyProbes: bool)
  {
    && (!failures ==> luck.readsLive && luck.copies && luck.removes)
    && (!flakyProbes ==> luck.seesBackup && luck.seesLive)
  }

  /** Whether heal gets as far as putting the backup back. */
  predicate Heals(f: Files, luck: Luck)
  {
    && f.backup.Some? && luck.seesBackup && luck.copies
    && (f.live.Some? && luck.seesLive ==> luck.readsLive && Blank(f.live.value))
  }

  /** What `heal_ipset_file` makes of a pair of files. */
  function Healed(f: Files, luck: Luck): Files
  {
    if Heals(f, luck) then Files(f.backup, if luck.removes then None else f.backup) else f
  }

  /** `heal_ipset_file`. */
  method Heal(disk: Disk, p: Path, luck: Luck, ghost lists: map<Path, Bytes>) returns (healed: bool)
    requires p in disk.files && disk.NeverLost(lists) && RealLists(lists)
    requires Possible(luck, disk.failures, disk.flakyProbes)
    modifies disk
    ensures disk.NeverLost(lists)
    ensures disk.files == old(disk.files)[p := Healed(old(disk.files)[p], luck)]
    ensures healed <==> Heals(old(disk.files)[p], luck)
  {
    var f := disk.files[p];
    if !(f.backup.Some? && luck.seesBackup) {
      return false;
    }
    var liveEmpty := f.live.Some? && luck.readsLive && Blank(f.live.value);
    if f.live.Some? && luck.seesLive && !liveEmpty {
      return false;
    }
    if !luck.copies {
      return false;
    }
    disk.Record(p, Files(f.backup, f.backup), lists);
    if luck.removes {
      disk.Record(p, Files(f.backup, None), lists);
    }
    return true;
  }

  /** If the list is lost from live, a heal whose operations succeed restores it. */
  lemma HealRestores(f: Files, list: Bytes, flakyProbes: bool)
    requires Safe(f, list, flakyProbes) && !Blank(list)
    ensures Healed(f, ALL_WELL).live == Some(list)
    ensures LiveIsBlank(f) ==> Healed(f, ALL_WELL) == Files(Some(list), None)
  {
  }

  /**
   * A non-blank live list survives a heal, exactly unless all of this happens:
   * a backup of something else lies beside it, the probe misses the live file,
   * and everything else works.
   */
  lemma HealOverwritesExactlyWhen(f: Files, luck: Luck)
    requires f.live.Some? && !Blank(f.live.value)
    ensures Healed(f, luck).live != f.live <==>
      f.backup.Some? && f.backup != f.live && luck.seesBackup && !luck.seesLive && luck.copies
  {
  }

  /** Such a case: an old backup left behind, a new list, and one failed probe. */
  lemma StaleBackupCanWin()
    ensures var f, luck := Files(Some([0x6e]), Some([0x6f])), ALL_WELL.(seesLive := false);
      Healed(f, luck) == Files(Some([0x6f]), None)
  {
    var list: Bytes := [0x6e];
    assert !IsAsciiSpace(list[0]);
  }

  // ------------------------------------------------------ activate and drop

  function Written(f: Files, toBackup: bool, data: Bytes): Files
  {
    if toBackup then f.(backup := Some(data)) else f.(live := Some(data))
  }

  /** `write_retry` on the backup (true) or the live file (false). */
  method WriteRetry(disk: Disk, p: Path, toBackup: bool, data: Bytes, ghost lists: map<Path, Bytes>) returns (ok: bool)
    requires p in disk.files && disk.NeverLost(lists)
    requires p in lists ==> Safe(Written(disk.files[p], toBackup, data), lists[p], disk.flakyProbes)
    modifies disk
    ensures disk.NeverLost(lists) && (!disk.failures ==> ok)
    ensures disk.files == if ok then old(disk.files)[p := Written(old(disk.files)[p], toBackup, data)]
      else old(disk.files)
    ensures if ok then 1 <= disk.tries - old(disk.tries) <= 3 else disk.tries - old(disk.tries) == 3
  {
    for attempt := 0 to 3
      invariant disk.NeverLost(lists) && disk.files == old(disk.files) && disk.tries == old(disk.tries) + attempt
      invariant !disk.failures ==> attempt == 0
    {
      ok := disk.Put(p, Written(disk.files[p], toBackup, data), lists);
      if ok {
        return true;
      }
    }
    return false;
  }

  /** A path emptied for the test: what the guard has to put back is beside it. */
  predicate Emptied(f: Files, list: Bytes)
  {
    f == Files(Some([]), Some(list))
  }

  /** The two writes of one iteration: the backup first, and only then the empty list. */
  method SwapOut(disk: Disk, p: Path, content: Bytes, ghost lists: map<Path, Bytes>) returns (restored: bool)
    requires p in disk.files && disk.NeverLost(lists) && disk.files[p].live == Some(content)
    requires p in lists ==> content == lists[p]
    modifies disk
    ensures disk.NeverLost(lists) && disk.files.Keys == old(disk.files).Keys
    ensures forall q :: q in disk.files && q != p ==> disk.files[q] == old(disk.files)[q]
    ensures restored ==> Emptied(disk.files[p], content)
    ensures disk.files[p].backup == Some(content) || disk.files[p] == old(disk.files)[p]
    ensures !disk.failures ==> restored
  {
    var saved := WriteRetry(disk, p, true, content, lists);
    if !saved {
      return false;
    }
    restored := WriteRetry(disk, p, false, [], lists);
  }

  /** One iteration of `activate_ipset_any`. */
  method ActivateOne(disk: Disk, p: Path, ghost lists: map<Path, Bytes>) returns (restored: bool)
    requires p in disk.files && disk.NeverLost(lists) && RealLists(lists)
    modifies disk
    ensures disk.NeverLost(lists) && disk.files.Keys == old(disk.files).Keys
    ensures forall q :: q in disk.files && q != p ==> disk.files[q] == old(disk.files)[q]
    ensures restored ==> disk.files[p].live == Some([]) && disk.files[p].backup.Some?
    ensures restored && p in lists ==> Emptied(disk.files[p], lists[p])
    ensures p in lists && CanPutBack(old(disk.files)[p], lists[p]) ==> CanPutBack(disk.files[p], lists[p])
    ensures !disk.failures && !disk.flakyProbes && p in lists ==> restored
  {
    var luck := disk.AnyLuck();
    var healed := Heal(disk, p, luck, lists);
    var content := disk.ReadLive(p);
    if content.None? || Blank(content.value) {
      return false;
    }
    assert p in lists ==> content == Some(lists[p]);
    restored := SwapOut(disk, p, content.value, lists);
  }

  /** `activate_ipset_any`: the guard remembers which lists it has to put back. */
  method Activate(disk: Disk, paths: seq<Path>, ghost lists: map<Path, Bytes>) returns (guard: seq<Path>)
    requires (forall p :: p in paths ==> p in disk.files) && disk.NeverLost(lists) && RealLists(lists)
    modifies disk
    ensures disk.NeverLost(lists) && disk.files.Keys == old(disk.files).Keys
    ensures forall p :: p in guard ==> p in paths && (p in lists ==> CanPutBack(disk.files[p], lists[p]))
    ensures !disk.failures && !disk.flakyProbes ==>
      forall p :: p in paths && p in lists ==> p in guard && Emptied(disk.files[p], lists[p])
  {
    guard := [];
    for i := 0 to |paths|
      invariant disk.NeverLost(lists) && disk.files.Keys == old(disk.files).Keys
      invariant forall p :: p in guard ==> p in paths && (p in lists ==> CanPutBack(disk.files[p], lists[p]))
      invariant !disk.failures && !disk.flakyProbes ==>
        forall p :: p in paths[..i] && p in lists ==> p in guard && Emptied(disk.files[p], lists[p])
    {
      ghost var before := disk.files;
      var restored := ActivateOne(disk, paths[i], lists);
      if restored {
        guard := guard + [paths[i]];
      }
      assert paths[..i + 1] == paths[..i] + [paths[i]];
    }
    assert paths[..|paths|] == paths;
  }

  /** The backup is the list, or there is none: putting it back cannot hurt. */
  predicate CanPutBack(f: Files, list: Bytes)
  {
    f.backup.None? || Holds(f.backup, list)
  }

  /** One iteration of `IpsetAnyGuard::drop`. */
  method DropOne(disk: Disk, p: Path, ghost lists: map<Path, Bytes>)
    requires p in disk.files && disk.NeverLost(lists) && RealLists(lists)
    requires p in lists ==> CanPutBack(disk.files[p], lists[p])
    modifies disk
    ensures disk.NeverLost(lists) && disk.files.Keys == old(disk.files).Keys
    ensures forall q :: q in disk.files && q != p ==> disk.files[q] == old(disk.files)[q]
    ensures p in lists ==> CanPutBack(disk.files[p], lists[p])
    ensures !disk.failures && !disk.flakyProbes && p in lists ==> disk.files[p] == Files(Some(lists[p]), None)
  {
    var there := disk.IsFile(disk.files[p].backup);
    if !there {
      return;
    }
    var backup := disk.files[p].backup;
    var ok := false;
    for attempt := 0 to 3
      invariant disk.NeverLost(lists) && disk.files == old(disk.files)
      invariant !disk.failures ==> attempt == 0
    {
      ok := disk.Put(p, Files(backup, backup), lists);
      if ok {
        break;
      }
    }
    if ok {
      var removed := disk.Put(p, Files(backup, None), lists);
    }
  }

  /** `IpsetAnyGuard::drop`. */
  method DropGuard(disk: Disk, guard: seq<Path>, ghost lists: map<Path, Bytes>)
    requires disk.NeverLost(lists) && RealLists(lists)
    requires forall p :: p in guard ==> p in disk.files && (p in lists ==> CanPutBack(disk.files[p], lists[p]))
    modifies disk
    ensures disk.NeverLost(lists) && disk.files.Keys == old(disk.files).Keys
    ensures !disk.failures && !disk.flakyProbes ==>
      forall p :: p in guard && p in lists ==> disk.files[p] == Files(Some(lists[p]), None)
  {
    for i := 0 to |guard|
      invariant disk.NeverLost(lists) && disk.files.Keys == old(disk.files).Keys
      invariant forall p :: p in guard && p in lists ==> CanPutBack(disk.files[p], lists[p])
      invariant !disk.failures && !disk.flakyProbes ==>
        forall p :: p in guard[..i] && p in lists ==> disk.files[p] == Files(Some(lists[p]), None)
    {
      DropOne(disk, guard[i], lists);
      assert guard[..i + 1] == guard[..i] + [guard[i]];
    }
    assert guard[..|guard|] == guard;
  }

  // --------------------------------------------------------------- many runs

  /**
   * Any number of test runs, each of which may be cut off by a crash at any
   * moment of the disk's past, with any operation failing: no list is ever
   * lost, and one heal whose operations succeed has every list back in place.
   */
  method Campaign(disk: Disk, paths: seq<Path>, runs: nat, ghost lists: map<Path, Bytes>)
    requires (forall p :: p in paths ==> p in disk.files) && disk.NeverLost(lists) && RealLists(lists)
    modifies disk
    ensures disk.NeverLost(lists)
    ensures forall p :: p in lists ==> p in disk.files && Healed(disk.files[p], ALL_WELL).live == Some(lists[p])
  {
    for run := 0 to runs
      invariant disk.NeverLost(lists) && disk.files.Keys == old(disk.files).Keys
    {
      var guard := Activate(disk, paths, lists);
      var survives := *;
      if survives {
        DropGuard(disk, guard, lists);
      }
      var crashes: bool, moment: nat := *, *;
      if crashes && moment < |disk.past| {
        disk.CrashAt(moment, lists);
      }
    }
    forall p | p in lists
      ensures p in disk.files && Healed(disk.files[p], ALL_WELL).live == Some(lists[p])
    {
      assert AllSafe(disk.past[|disk.past| - 1], lists, disk.flakyProbes);
      HealRestores(disk.files[p], lists[p], disk.flakyProbes);
    }
  }
}
