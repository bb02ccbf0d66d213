/**
  Copying one regular file up: the temporary names it tries, and what it answers as a
  function of the system's answers along the way.
*/
module DiskAnswers {
  import opened RawFs

  type Failure = e: Errno | e != OK witness EIO

  /** One answer of read(2) or write(2): cut short, interrupted, or an error. */
  datatype Io = Short(n: nat) | Interrupted | Fail(err: Failure)

  /** The system's answers while one regular file is copied; when io runs out, transfers are full. */
  datatype Disk = Disk(pid: nat, open: Errno, io: seq<Io>, rename: Errno)

  /** For calls that copy nothing. */
  const NO_COPY := Disk(0, OK, [], OK)

  const BUF := 65536

  function Min(a: nat, b: nat): nat {
    if a <= b then a else b
  }

  // ---- temporary names ----

  function Decimal(n: nat): (s: string)
    ensures s != "" && '/' !in s
  {
    (if n < 10 then "" else Decimal(n / 10)) + ["0123456789"[n % 10]]
  }

  function TempSuffix(pid: nat, k: nat): (s: string)
    ensures |s| > 9 && s[..9] == ".jaim-cu." && '/' !in s
  {
    ".jaim-cu." + Decimal(pid) + "." + Decimal(k)
  }

  /** The k-th temporary name copy_regular tries for dst. */
  function TempPath(dst: Path, pid: nat, k: nat): (t: Path)
    requires dst != []
    ensures t != [] && t != dst && Parent(t) == Parent(dst) && |t| == |dst|
  {
    var n := Last(dst) + TempSuffix(pid, k);
    assert |n| > |Last(dst)|;
    Parent(dst) + [n]
  }

  const ATTEMPTS := 100

  /** One of the names copy_regular tries is not taken. */
  predicate TempFree(u: Tree, dst: Path, pid: nat)
    requires dst != []
  {
    exists k :: 0 <= k < ATTEMPTS && TempPath(dst, pid, k) !in u
  }

  // ---- the answer ----

  /**
    What streaming answers with unread bytes still to be read and unwritten ones still to
    be written, in the order the loop asks: it writes a buffer out before it reads again.
  */
  function Streamed(unread: nat, unwritten: nat, io: seq<Io>): Errno
    decreases |io|
  {
    if io == [] then OK
    else
      match io[0]
      case Fail(e) => e
      case Interrupted => Streamed(unread, unwritten, io[1..])
      case Short(m) =>
        if unwritten > 0 then Streamed(unread, unwritten - Min(m, unwritten), io[1..])
        else if unread == 0 then OK
        else
          var n := Min(m + 1, Min(BUF, unread));
          Streamed(unread - n, n, io[1..])
  }

  // One answer of the disk, while writing and while reading.
  lemma StreamedStep(unread: nat, unwritten: nat, io: seq<Io>)
    ensures io == [] || (unread == 0 && unwritten == 0 && io[0].Short?) ==> Streamed(unread, unwritten, io) == OK
    ensures io != [] && io[0].Fail? ==> Streamed(unread, unwritten, io) == io[0].err
    ensures io != [] && io[0].Interrupted? ==>
              Streamed(unread, unwritten, io) == Streamed(unread, unwritten, io[1..])
    ensures io != [] && io[0].Short? && unwritten > 0 ==>
              Streamed(unread, unwritten, io) == Streamed(unread, unwritten - Min(io[0].n, unwritten), io[1..])
    ensures io != [] && io[0].Short? && unwritten == 0 < unread ==>
              var n := Min(io[0].n + 1, Min(BUF, unread));
              Streamed(unread, unwritten, io) == Streamed(unread - n, n, io[1..])
  {
  }

  lemma NothingFails()
    ensures forall unread, unwritten :: Streamed(unread, unwritten, []) == OK
  {
  }

  /** What copying size bytes to dst answers, once dst's parent is a directory. */
  function CopyAnswer(u: Tree, dst: Path, size: nat, disk: Disk): Errno
    requires dst != []
  {
    if disk.open != OK then disk.open
    else if !TempFree(u, dst, disk.pid) then EEXIST
    else
      var s := Streamed(size, 0, disk.io);
      if s != OK then s else disk.rename
  }

  /** No call fails while the file is copied; short and interrupted transfers are no failure. */
  predicate NoFailure(disk: Disk) {
    disk.open == OK && disk.rename == OK && forall i :: 0 <= i < |disk.io| ==> !disk.io[i].Fail?
  }

  predicate CopiesWell(u: Tree, p: Path, disk: Disk) {
    NoFailure(disk) && (p != [] ==> TempFree(u, p, disk.pid))
  }

  /** Answer i is e, and no earlier one is a failure. */
  predicate FirstFailure(io: seq<Io>, i: nat, e: Errno) {
    i < |io| && e != OK && io[i] == Fail(e) && forall j :: 0 <= j < i ==> !io[j].Fail?
  }

  lemma {:induction false} StreamedFails(unread: nat, unwritten: nat, io: seq<Io>)
    ensures var e := Streamed(unread, unwritten, io);
            e != OK ==> exists i: nat :: FirstFailure(io, i, e)
    decreases |io|
  {
    if io == [] {
    } else {
      var e := Streamed(unread, unwritten, io);
      match io[0]
      case Fail(f) => assert FirstFailure(io, 0, f);
      case Interrupted =>
        StreamedFails(unread, unwritten, io[1..]);
        FailsLater(io, e);
      case Short(m) =>
        if unwritten > 0 {
          StreamedFails(unread, unwritten - Min(m, unwritten), io[1..]);
        } else if unread > 0 {
          var n := Min(m + 1, Min(BUF, unread));
          StreamedFails(unread - n, n, io[1..]);
        }
        FailsLater(io, e);
    }
  }

  lemma FailsLater(io: seq<Io>, e: Errno)
    requires io != [] && !io[0].Fail?
    ensures (exists i: nat :: FirstFailure(io[1..], i, e)) ==> exists i: nat :: FirstFailure(io, i, e)
  {
    if i: nat :| FirstFailure(io[1..], i, e) {
      assert forall j :: 0 < j < i + 1 ==> io[j] == io[1..][j - 1];
      assert FirstFailure(io, i + 1, e);
    }
  }

  /**
    Copying succeeds on every disk on which nothing fails, if a temporary name is free.
    When it does not succeed, its answer is one the disk gave, or every name is taken.
  */
  lemma CopyAnswerMeans(u: Tree, dst: Path, size: nat, disk: Disk)
    requires dst != []
    ensures var e := CopyAnswer(u, dst, size, disk);
            && (CopiesWell(u, dst, disk) ==> e == OK)
            && (e != OK ==>
                  || e == disk.open || e == disk.rename
                  || (e == EEXIST && !TempFree(u, dst, disk.pid))
                  || (exists i: nat :: FirstFailure(disk.io, i, e)))
  {
    StreamedFails(size, 0, disk.io);
  }

  /** The disk itself answers EEXIST after the temporary file is open. */
  predicate ExistsAnyway(size: nat, disk: Disk) {
    Streamed(size, 0, disk.io) == EEXIST || (Streamed(size, 0, disk.io) == OK && disk.rename == EEXIST)
  }

  /** Two upper trees make a difference exactly if one has a free name and the other none. */
  lemma CopyAnswerDiffers(u: Tree, v: Tree, dst: Path, size: nat, disk: Disk)
    requires dst != []
    ensures CopyAnswer(u, dst, size, disk) == CopyAnswer(v, dst, size, disk) <==>
            || TempFree(u, dst, disk.pid) == TempFree(v, dst, disk.pid)
            || disk.open != OK || ExistsAnyway(size, disk)
  {
  }
}
