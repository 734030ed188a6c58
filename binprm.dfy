/** The binary-parameters record (struct linux_binprm) and the two routines of
    linuxload.c that fill it before any format loader runs: `count`, which
    measures a NULL-terminated host vector, and `prepare_binprm`, which checks
    the file mode, derives the effective credentials and reads the header. */
module Binprm {

  /** Size of the header buffer (BPRM_BUF_SIZE). */
  const BPRM_BUF_SIZE: nat := 1024
  /** Number of argument-page slots in the record (MAX_ARG_PAGES). */
  const MAX_ARG_PAGES: nat := 33

  /** Linux errno values this core returns negated. */
  const EIO: int := 5
  const EACCES: int := 13
  const ENOEXEC: int := 8

  /** st_mode bits (the octal constants 0170000, 0100000, 04000, 02000, 010, 0111). */
  const S_IFMT: bv32 := 0xF000
  const S_IFREG: bv32 := 0x8000
  const S_ISUID: bv32 := 0x800
  const S_ISGID: bv32 := 0x400
  const S_IXGRP: bv32 := 0x8
  const ANY_EXEC: bv32 := 0x49

  /** An entry of a host `char **` vector: a string or the NULL that ends the vector. */
  datatype HostPtr = Null | Ptr(chars: string)

  /** How a routine ends: it returns a code, or it terminates the whole process. */
  datatype Status = Returned(code: int) | Exited(status: int)

  /** A slot of bprm->page: empty, holding a page buffer, or holding a released one. */
  datatype PageEntry = NoPage | Held | Freed

  /** What fstat reports: the file's status, or the errno of the failure. */
  datatype Stat = Stat(mode: bv32, uid: int, gid: int)
  datatype StatResult = StatOk(st: Stat) | StatErr(errno: Errno)

  /** A failing system call sets a positive errno. */
  type Errno = e: int | 0 < e witness 1

  predicate IsRegular(mode: bv32) { mode & S_IFMT == S_IFREG }
  predicate AnyExecBit(mode: bv32) { mode & ANY_EXEC != 0 }
  predicate SetUid(mode: bv32) { mode & S_ISUID != 0 }
  /** Set-gid counts only together with group-execute; set-gid alone asks for mandatory locking. */
  predicate SetGidExec(mode: bv32) { mode & (S_ISGID | S_IXGRP) == (S_ISGID | S_IXGRP) }

  /** The mode checks prepare_binprm makes before it touches anything. */
  predicate ChecksPass(r: StatResult)
  {
    r.StatOk? && IsRegular(r.st.mode) && AnyExecBit(r.st.mode)
  }

  /** i is what `count` returns for vec: the index of the first NULL. */
  ghost predicate CountOf(vec: seq<HostPtr>, i: int)
  {
    0 <= i < |vec| && vec[i] == Null && Null !in vec[..i]
  }

  /** The open executable as the host kernel presents it: its status, its bytes,
      whether reading it fails, and the file offset of the descriptor. */
  class OpenFile {
    const status: StatResult
    const data: seq<bv8>
    const ioError: bool
    var offset: nat

    ghost predicate Valid() reads this { offset <= |data| }

    constructor (status: StatResult, data: seq<bv8>, ioError: bool)
      ensures this.status == status && this.data == data && this.ioError == ioError
      ensures offset == 0 && Valid()
    {
      this.status, this.data, this.ioError := status, data, ioError;
      offset := 0;
    }

    /** read(2) on a regular file: up to `count` bytes from the current offset,
        fewer only at end of file; or an error with nothing consumed. */
    method Read(buf: array<bv8>, count: nat) returns (r: int)
      requires Valid() && count <= buf.Length
      modifies this`offset, buf
      ensures Valid()
      ensures ioError ==> r < 0 && offset == old(offset) && buf[..] == old(buf[..])
      ensures !ioError ==> 0 <= r <= count && r == Min(count, |data| - old(offset))
      ensures !ioError ==> offset == old(offset) + r
      ensures !ioError ==> buf[..r] == data[old(offset)..old(offset) + r]
      ensures !ioError ==> buf[r..] == old(buf[r..])
    {
      if ioError {
        return -EIO;
      }
      r := Min(count, |data| - offset);
      var i := 0;
      while i < r
        invariant 0 <= i <= r
        invariant offset == old(offset) && offset + r <= |data|
        invariant buf[..i] == data[offset..offset + i]
        invariant buf[r..] == old(buf[r..])
      {
        buf[i] := data[offset + i];
        i := i + 1;
      }
      offset := offset + r;
    }
  }

  function Min(a: int, b: int): int { if a <= b then a else b }

  /** struct linux_binprm, with the fields this core uses. */
  class LinuxBinprm {
    const buf: array<bv8>
    const page: array<PageEntry>
    var p: int
    var fd: OpenFile?
    var filename: string
    var argc: int
    var envc: int
    var argv: seq<HostPtr>
    var envp: seq<HostPtr>
    var eUid: int
    var eGid: int

    ghost predicate Valid() reads this
    {
      buf.Length == BPRM_BUF_SIZE && page.Length == MAX_ARG_PAGES
    }

    constructor ()
      ensures Valid() && fresh(buf) && fresh(page) && fd == null
    {
      buf := new bv8[BPRM_BUF_SIZE];
      page := new PageEntry[MAX_ARG_PAGES];
      fd := null;
    }
  }

  /** count: walks the vector up to its NULL and returns how many entries precede it. */
  method Count(vec: seq<HostPtr>) returns (i: nat)
    requires Null in vec
    ensures CountOf(vec, i)
  {
    i := 0;
    while vec[i] != Null
      invariant i < |vec|
      invariant Null !in vec[..i]
      invariant Null in vec[i..]
      decreases |vec| - i
    {
      assert vec[..i + 1] == vec[..i] + [vec[i]];
      i := i + 1;
    }
  }

  /** What prepare_binprm ends with, given the file's status, whether reading
      fails, and how many bytes lie between the offset and end of file. */
  ghost function PrepareOutcome(r: StatResult, ioError: bool, avail: nat): Status
  {
    if r.StatErr? then Returned(-(r.errno as int))
    else if !IsRegular(r.st.mode) || !AnyExecBit(r.st.mode) then Returned(-EACCES)
    else if ioError then Exited(-1)
    else Returned(Min(avail, BPRM_BUF_SIZE))
  }

  /** The effective credentials prepare_binprm derives from the file's status
      once the checks pass: the owner with set-uid, the group only with
      set-gid and group-execute together, the caller's otherwise. */
  ghost predicate CredentialsFrom(s: Stat, euid: int, egid: int, eUid: int, eGid: int)
  {
    && eUid == (if SetUid(s.mode) then s.uid else euid)
    && eGid == (if SetGidExec(s.mode) then s.gid else egid)
  }

  /** The header buffer holds the `code` bytes of the file that start at
      `offset`, then zeros up to its end. */
  ghost predicate HeaderFrom(buf: seq<bv8>, data: seq<bv8>, offset: int, code: int)
  {
    && 0 <= code <= |buf| && 0 <= offset && offset + code <= |data|
    && buf[..code] == data[offset..offset + code]
    && (forall i :: code <= i < |buf| ==> buf[i] == 0)
  }

  /** prepare_binprm: mode checks, effective credentials, and the zero-padded header. */
  method PrepareBinprm(bprm: LinuxBinprm, euid: int, egid: int) returns (st: Status)
    requires bprm.Valid() && bprm.fd != null && bprm.fd.Valid()
    modifies bprm`eUid, bprm`eGid, bprm.buf, bprm.fd`offset
    ensures bprm.fd.Valid()
    ensures st == PrepareOutcome(bprm.fd.status, bprm.fd.ioError, |bprm.fd.data| - old(bprm.fd.offset))
    // The checks, in order, each with its own code.
    ensures bprm.fd.status.StatErr? ==> st == Returned(-(bprm.fd.status.errno as int))
    ensures bprm.fd.status.StatOk? && !IsRegular(bprm.fd.status.st.mode) ==> st == Returned(-EACCES)
    ensures (bprm.fd.status.StatOk? && IsRegular(bprm.fd.status.st.mode) && !AnyExecBit(bprm.fd.status.st.mode))
              ==> st == Returned(-EACCES)
    // A failed check touches neither the credentials nor the file nor the buffer.
    ensures !ChecksPass(bprm.fd.status) ==>
              && bprm.eUid == old(bprm.eUid) && bprm.eGid == old(bprm.eGid)
              && bprm.fd.offset == old(bprm.fd.offset) && bprm.buf[..] == old(bprm.buf[..])
    // Credentials.
    ensures ChecksPass(bprm.fd.status) ==>
              CredentialsFrom(bprm.fd.status.st, euid, egid, bprm.eUid, bprm.eGid)
    // The header: the file's leading bytes, then zeros up to the buffer's end.
    ensures st.Returned? && st.code >= 0 ==>
              && st.code <= BPRM_BUF_SIZE
              && HeaderFrom(bprm.buf[..], bprm.fd.data, old(bprm.fd.offset), st.code)
              && bprm.fd.offset == old(bprm.fd.offset) + st.code
  {
    var file := bprm.fd;
    if file.status.StatErr? {
      return Returned(-(file.status.errno as int));
    }
    var mode := file.status.st.mode;
    if !IsRegular(mode) {
      return Returned(-EACCES);
    }
    if !AnyExecBit(mode) {
      return Returned(-EACCES);
    }

    bprm.eUid := euid;
    bprm.eGid := egid;
    if SetUid(mode) {
      bprm.eUid := file.status.st.uid;
    }
    if SetGidExec(mode) {
      bprm.eGid := file.status.st.gid;
    }

    var retval := file.Read(bprm.buf, BPRM_BUF_SIZE);
    if retval < 0 {
      // perror and exit(-1): the process ends here.
      return Exited(-1);
    }
    if retval < BPRM_BUF_SIZE {
      var i := retval;
      while i < BPRM_BUF_SIZE
        modifies bprm.buf
        invariant retval <= i <= BPRM_BUF_SIZE
        invariant bprm.buf[..retval] == old(bprm.fd.data)[old(bprm.fd.offset)..old(bprm.fd.offset) + retval]
        invariant forall j :: retval <= j < i ==> bprm.buf[j] == 0
      {
        bprm.buf[i] := 0;
        i := i + 1;
      }
    }
    return Returned(retval);
  }
}
