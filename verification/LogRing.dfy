/**
 * The in-memory log ring and the file rotation of logger.rs.
 */
module LogRing {
  const CAP: nat := 1500
  const MAX_MSG: nat := 4000
  const MAX_FILE: nat := 1024 * 1024
  const ROTATE_RETRY_GROW: nat := 256 * 1024

  datatype Level = Info | Ok | Warn | Err

  datatype Entry = Entry(seqNo: nat, ts: nat, level: Level, scope: string, msg: string)

  /** The newest `CAP` elements. */
  function Newest<T>(all: seq<T>): (r: seq<T>)
    ensures |r| == if |all| <= 1500 then |all| else 1500
  {
    if |all| <= CAP then all else all[|all| - CAP..]
  }

  /** An over-long message keeps its first `MAX_MSG` characters; `note` says how many went. */
  function Cut(msg: string, note: nat -> string): string
  {
    if |msg| > MAX_MSG then msg[..MAX_MSG] + note(|msg| - MAX_MSG) else msg
  }

  /** A message that fits is kept as it is; of a longer one the beginning, and then how much is missing. */
  lemma CutKeepsTheBeginning(msg: string, note: nat -> string)
    ensures |msg| <= 4000 ==> Cut(msg, note) == msg
    ensures |msg| > 4000 ==>
      && |Cut(msg, note)| >= 4000 && Cut(msg, note)[4000..] == note(|msg| - 4000)
      && forall i :: 0 <= i < 4000 ==> Cut(msg, note)[i] == msg[i]
  {
  }

  lemma DropOldest<T>(all: seq<T>, n: nat)
    requires 0 < n <= |all|
    ensures all[|all| - n..][1..] == all[|all| - (n - 1)..]
  {
  }

  /** The ring; `history` is everything ever logged, for specification. */
  class Logger {
    var buf: seq<Entry>
    var seqNo: nat
    ghost var history: seq<Entry>

    constructor ()
      ensures Valid() && history == []
    {
      buf, seqNo, history := [], 0, [];
    }

    ghost predicate Valid()
      reads this
    {
      && seqNo == |history|
      && (forall i :: 0 <= i < |history| ==> history[i].seqNo == i + 1)
      && buf == Newest(history)
    }

    /** The buffer part of `log`; `ts` is the clock reading, `msg` already trimmed. */
    method Log(level: Level, scope: string, msg: string, ts: nat, note: nat -> string) returns (e: Entry)
      requires Valid()
      modifies this
      ensures Valid()
      ensures e == Entry(|history|, ts, level, scope, Cut(msg, note))
      ensures history == old(history) + [e]
    {
      var text := if |msg| > MAX_MSG then msg[..MAX_MSG] + note(|msg| - MAX_MSG) else msg;
      seqNo := seqNo + 1;
      e := Entry(seqNo, ts, level, scope, text);
      ghost var all := history + [e];
      buf := buf + [e];
      while |buf| > CAP
        invariant seqNo == |all| && |buf| <= |all| && |buf| >= |Newest(all)|
        invariant buf == all[|all| - |buf|..]
      {
        DropOldest(all, |buf|);
        buf := buf[1..];
      }
      history := all;
    }

    /**
     * `entries`: exactly the logged entries numbered above `after` that the ring
     * still holds, oldest first.
     */
    method Entries(after: nat) returns (r: seq<Entry>)
      requires Valid()
      ensures r == Polled(history, after)
    {
      r := [];
      ghost var first := |history| - |buf|;
      for i := 0 to |buf|
        invariant r == (if after <= first + i then history[Larger(after, first)..first + i] else [])
      {
        if buf[i].seqNo > after {
          r := r + [buf[i]];
        }
      }
      assert history[..|history|] == history;
      if after <= |history| {
        assert r == history[Larger(after, first)..|history|] == history[Larger(after, first)..];
      }
    }
  }

  function Larger(a: nat, b: nat): nat { if a < b then b else a }

  /** Entry number n is `history[n - 1]`, so those above `after` start at index `after`. */
  function Polled(history: seq<Entry>, after: nat): seq<Entry>
  {
    var first := |history| - |Newest(history)|;
    if after >= |history| then [] else history[Larger(after, first)..]
  }

  /**
   * A reader that polls with the last number it has seen gets every entry once
   * and in order, exactly as long as no more than 1500 entries come between
   * two polls.
   */
  lemma PollingLosesNothing(seen: seq<Entry>, more: seq<Entry>)
    ensures seen + Polled(seen + more, |seen|) == seen + more <==> |more| <= 1500
  {
    var all := seen + more;
    if |more| <= CAP {
      assert Polled(all, |seen|) == more;
    } else {
      assert |Polled(all, |seen|)| == CAP;
    }
  }

  // ---------------------------------------------------------------- rotation

  predicate ShouldRotate(fileLen: nat, incoming: nat, retryAt: nat)
  {
    fileLen + incoming > MAX_FILE && fileLen >= retryAt
  }

  /**
   * A file of 1 MiB is rotated when it has no room for the line, and not again before it
   * has grown by 256 KiB since the last attempt in vain.
   */
  predicate Due(fileLen: nat, lineLen: nat, failed: seq<nat>)
  {
    && fileLen + lineLen > 1048576
    && (failed == [] || fileLen >= failed[|failed| - 1] + 262144)
  }

  /**
   * The file side of the log. `failed` lists the file sizes at which a rotation
   * was tried in vain since the last one that worked.
   */
  class LogFile {
    var fileLen: nat
    var retryAt: nat
    ghost var failed: seq<nat>

    constructor (existing: nat)
      ensures Valid() && fileLen == existing && failed == []
    {
      fileLen, retryAt, failed := existing, 0, [];
    }

    ghost predicate Valid()
      reads this
    {
      && Spaced(failed)
      && (failed == [] ==> retryAt == 0)
      && (failed != [] ==> failed[|failed| - 1] <= fileLen && retryAt == failed[|failed| - 1] + ROTATE_RETRY_GROW)
    }

    /**
     * `write_file`: rotate if due, then append. The file outgrows `MAX_FILE` only
     * while rotation keeps failing or by a single over-long line.
     */
    method WriteLine(lineLen: nat, renameOk: bool, appendOk: bool)
      requires Valid()
      modifies this
      ensures Valid()
      ensures var due := ShouldRotate(old(fileLen), lineLen, old(retryAt));
        && failed == (if !due then old(failed) else if renameOk then [] else old(failed) + [old(fileLen)])
        && fileLen == (if due && renameOk then 0 else old(fileLen)) + (if appendOk then lineLen else 0)
      ensures renameOk && old(failed) == [] && old(fileLen) <= MAX_FILE ==>
        failed == [] && (fileLen <= MAX_FILE || fileLen == lineLen)
      ensures if Due(old(fileLen), lineLen, old(failed))
        then if renameOk then failed == [] && fileLen == (if appendOk then lineLen else 0)
             else failed == old(failed) + [old(fileLen)]
        else failed == old(failed) && fileLen == old(fileLen) + (if appendOk then lineLen else 0)
    {
      if ShouldRotate(fileLen, lineLen, retryAt) {
        if renameOk {
          fileLen, retryAt := 0, 0;
          failed := [];
        } else {
          failed := failed + [fileLen];
          retryAt := fileLen + ROTATE_RETRY_GROW;
        }
      }
      if appendOk {
        fileLen := fileLen + lineLen;
      }
    }
  }

  /** Each failed attempt comes at least `ROTATE_RETRY_GROW` octets after the one before. */
  predicate Spaced(at: seq<nat>)
  {
    forall i :: 0 < i < |at| ==> at[i] >= at[i - 1] + ROTATE_RETRY_GROW
  }

  /** So their number is bounded by the growth of the file. */
  lemma {:induction false} SpacedBound(at: seq<nat>)
    requires Spaced(at) && at != []
    ensures at[|at| - 1] >= at[0] + (|at| - 1) * ROTATE_RETRY_GROW
  {
    if |at| > 1 {
      SpacedBound(at[..|at| - 1]);
    }
  }
}
