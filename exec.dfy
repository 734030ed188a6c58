/** loader_exec: fills the binary-parameters record, runs prepare_binprm,
    chooses the format loader from the header's magic, sets up the fixed CGC
    flag page and stack region, and on failure releases the argument pages. */
module Exec {
  import opened TargetMemory
  import opened Image
  import opened Binprm

  const TARGET_PAGE_SIZE: int := 4096
  const SIZEOF_UINT: int := 4

  /** bprm->p before any argument is copied: the top of the argument pages, less one unsigned int. */
  const ARG_P_INIT: int := TARGET_PAGE_SIZE * MAX_ARG_PAGES - SIZEOF_UINT

  /** The fixed layout of the CGC ABI. */
  const FLAG_PAGE: int := 0x4347C000
  const FLAG_PAGE_SIZE: int := 4096
  const FLAG_WORDS: int := FLAG_PAGE_SIZE / 4
  /** "LCBC" read as a little-endian 32-bit word. */
  const FLAG_FILL: int := 0x4342434C
  /** The initial stack pointer, as the 64-bit host value the limit is computed from. */
  const STACK_INIT_BITS: bv64 := 0xBAAAAFFC
  const STACK_INIT_VALUE: int := STACK_INIT_BITS as int
  /** STACK_INIT_VALUE rounded down to its page, plus one page. */
  const STACK_LIMIT_BITS: bv64 := (STACK_INIT_BITS & 0xFFFF_FFFF_FFFF_F000) + 0x1000
  const STACK_PAGE_LIMIT: int := STACK_LIMIT_BITS as int
  const STACK_PAGE_SIZE: int := 4096
  /** The CGC target's abi_ulong is 32 bits wide. */
  const ABI_RANGE: int := 0x1_0000_0000

  /** 0x7F 'C' 'G' 'C' and 'b' 'F' 'L' 'T'. */
  const CGC_MAGIC: seq<bv8> := [0x7F, 0x43, 0x47, 0x43]
  const BFLT_MAGIC: seq<bv8> := [0x62, 0x46, 0x4C, 0x54]

  /** The register block handed to the new thread. */
  class TargetRegs {
    /** ecx: the CGC ABI passes the flag page's address here. */
    var ecx: int
    /** Set once do_init_thread has run. */
    var initialised: bool
  }

  datatype Format = CgcElf | Flat | Unrecognised

  /** The magic dispatch on the first four header bytes. */
  function Sniff(buf: seq<bv8>, hasBflt: bool): (f: Format)
    requires |buf| >= 4
    ensures f == CgcElf <==> buf[..4] == CGC_MAGIC
    ensures f == Flat <==> hasBflt && buf[..4] == BFLT_MAGIC
    ensures f == Unrecognised <==> buf[..4] != CGC_MAGIC && !(hasBflt && buf[..4] == BFLT_MAGIC)
  {
    if buf[0] == 0x7F && buf[1] == 0x43 && buf[2] == 0x47 && buf[3] == 0x43 then CgcElf
    else if hasBflt && buf[0] == 0x62 && buf[1] == 0x46 && buf[2] == 0x4C && buf[3] == 0x54 then Flat
    else Unrecognised
  }

  /** What a format loader (load_elf_binary, load_flt_binary) does, taken as
      given: its result, the image_info fields it fills, the page slots it
      fills, the target words and bytes it writes (the image, the copied
      strings, the argument tables) and the mappings it requests. */
  datatype LoaderRun = LoaderRun(retval: int, startStack: int, stackLimit: int,
                                 argStart: int, argEnd: int, pages: set<int>,
                                 words: map<int, int>, bytes: map<int, bv8>, mappings: seq<Mapping>)

  /** The loader's stack values are abi_ulong. */
  predicate RunInRange(run: LoaderRun)
  {
    0 <= run.startStack < ABI_RANGE && 0 <= run.stackLimit < ABI_RANGE
  }

  /** Everything loader_exec takes from outside this file: the caller's
      credentials, the build configuration (CONFIG_CGC_USER, TARGET_HAS_BFLT),
      the two loaders' behaviour, and the address target_mmap returns for the flag page. */
  datatype Host = Host(euid: int, egid: int, cgcUser: bool, hasBflt: bool,
                       elf: LoaderRun, flt: LoaderRun, flagMap: int)

  /** The outcome of the dispatch: no dispatch (prepare_binprm failed), a
      loader ran, or the header matched no format. */
  datatype Dispatch = Skipped | Ran(run: LoaderRun) | NoFormat

  function Dispatched(prep: int, hdr: seq<bv8>, host: Host): (d: Dispatch)
    requires |hdr| >= 4
    ensures d == Skipped <==> prep < 0
    ensures d == NoFormat <==> 0 <= prep && Sniff(hdr, host.hasBflt) == Unrecognised
    ensures 0 <= prep && Sniff(hdr, host.hasBflt) == CgcElf ==> d == Ran(host.elf)
    ensures 0 <= prep && Sniff(hdr, host.hasBflt) == Flat ==> d == Ran(host.flt)
  {
    if prep < 0 then Skipped
    else match Sniff(hdr, host.hasBflt)
      case CgcElf => Ran(host.elf)
      case Flat => Ran(host.flt)
      case Unrecognised => NoFormat
  }

  /** retval after the dispatch. */
  function RetvalAfter(prep: int, d: Dispatch): int
  {
    if d.Ran? then d.run.retval else prep
  }

  /** Slot i of bprm->page once the dispatch is over. */
  function LoadedPage(d: Dispatch, i: int): PageEntry
  {
    if d.Ran? && i in d.run.pages then Held else NoPage
  }

  /** Target words, bytes and mapping log once the dispatch is over: a loader
      that ran has added its own writes and requests. */
  function WordsAfter(d: Dispatch, w: map<int, int>): map<int, int>
  {
    if d.Ran? then w + d.run.words else w
  }

  function BytesAfter(d: Dispatch, b: map<int, bv8>): map<int, bv8>
  {
    if d.Ran? then b + d.run.bytes else b
  }

  function MappingsAfter(d: Dispatch, m: seq<Mapping>): seq<Mapping>
  {
    if d.Ran? then m + d.run.mappings else m
  }

  /** What g_free leaves in a slot: a held page is released, an empty slot stays empty. */
  function Released(e: PageEntry): PageEntry
  {
    if e == Held then Freed else e
  }

  /** STACK_PAGES_NUM: the distance from the stack limit up to the stack
      pointer in whole pages, plus one, in 32-bit unsigned arithmetic. */
  function StackPagesNum(startStack: int, stackLimit: int): (pages: int)
    requires 0 <= startStack < ABI_RANGE && 0 <= stackLimit < ABI_RANGE
    ensures 1 <= pages <= ABI_RANGE / STACK_PAGE_SIZE
    ensures (pages - 1) * STACK_PAGE_SIZE <= (startStack - stackLimit) % ABI_RANGE < pages * STACK_PAGE_SIZE
  {
    ((startStack - stackLimit) % ABI_RANGE) / STACK_PAGE_SIZE + 1
  }

  /** Length of the stack mapping: pages times the page size, a 32-bit unsigned product. */
  function StackMapLength(pages: int): int
  {
    (pages * STACK_PAGE_SIZE) % ABI_RANGE
  }

  /** stack_start: the limit less the length, as a 32-bit target address. */
  function StackMapStart(length: int): int
  {
    (STACK_PAGE_LIMIT - length) % ABI_RANGE
  }

  /** The stack mapping requested for the loader's stack values. */
  function StackMapping(startStack: int, stackLimit: int): Mapping
    requires 0 <= startStack < ABI_RANGE && 0 <= stackLimit < ABI_RANGE
  {
    var length := StackMapLength(StackPagesNum(startStack, stackLimit));
    Mapping(StackMapStart(length), length, ProtReadWriteExec)
  }

  /** For any stack the loader can have set up below the limit, the stack
      mapping is a whole number of pages, ends exactly at STACK_PAGE_LIMIT and
      is longer than the loader's stack. */
  lemma StackMappingEndsAtLimit(startStack: int, stackLimit: int)
    requires 0 <= stackLimit <= startStack < ABI_RANGE
    requires startStack - stackLimit < STACK_PAGE_LIMIT
    ensures var m := StackMapping(startStack, stackLimit);
            && m.length == StackPagesNum(startStack, stackLimit) * STACK_PAGE_SIZE
            && m.start + m.length == STACK_PAGE_LIMIT
            && startStack - stackLimit < m.length
  {
    var span := startStack - stackLimit;
    assert span % ABI_RANGE == span;
    var q := span / STACK_PAGE_SIZE;
    assert q * STACK_PAGE_SIZE <= span;
    var pages := StackPagesNum(startStack, stackLimit);
    assert pages == q + 1;
    assert STACK_PAGE_LIMIT == 0xBAAAB000;
    assert pages * STACK_PAGE_SIZE == q * STACK_PAGE_SIZE + STACK_PAGE_SIZE;
    assert 0 < pages * STACK_PAGE_SIZE <= STACK_PAGE_LIMIT < ABI_RANGE;
    var length := StackMapLength(pages);
    assert length == pages * STACK_PAGE_SIZE;
    assert StackMapStart(length) == STACK_PAGE_LIMIT - length;
  }

  /** Every 32-bit word of the flag page at base holds FLAG_FILL. */
  ghost predicate FlagPageFilled(words: map<int, int>, base: int)
  {
    forall k :: 0 <= k < FLAG_WORDS ==> Slot(base, 4, k) in words && words[Slot(base, 4, k)] == FLAG_FILL
  }

  /** The loop over the locked flag page: every 32-bit word set to FLAG_FILL.
      The locked host window is modelled as the target words themselves. */
  method FillFlagPage(mem: Memory, base: int)
    modifies mem`words
    ensures FlagPageFilled(mem.words, base)
    ensures FramedBy(old(mem.words), mem.words, base, base + FLAG_PAGE_SIZE)
  {
    var fi := 0;
    while fi < FLAG_PAGE_SIZE / 4
      invariant 0 <= fi <= FLAG_WORDS
      invariant forall k :: 0 <= k < fi ==>
                  Slot(base, 4, k) in mem.words && mem.words[Slot(base, 4, k)] == FLAG_FILL
      invariant FramedBy(old(mem.words), mem.words, base, base + FLAG_PAGE_SIZE)
    {
      mem.words := mem.words[Slot(base, 4, fi) := FLAG_FILL];
      fi := fi + 1;
    }
  }

  /** The CGC block: map and fill the flag page, map the stack region, and
      install the fixed stack values and the flag page register. */
  method CgcSetup(mem: Memory, infop: ImageInfo, regs: TargetRegs, flagMap: int)
    requires 0 <= infop.startStack < ABI_RANGE && 0 <= infop.stackLimit < ABI_RANGE
    modifies mem`words, mem`mappings, infop`startStack, infop`stackLimit, regs`ecx
    ensures mem.mappings == old(mem.mappings) + [Mapping(FLAG_PAGE, FLAG_PAGE_SIZE, ProtReadWrite),
                                                 StackMapping(old(infop.startStack), old(infop.stackLimit))]
    ensures FlagPageFilled(mem.words, flagMap)
    ensures FramedBy(old(mem.words), mem.words, flagMap, flagMap + FLAG_PAGE_SIZE)
    ensures regs.ecx == flagMap
    ensures infop.startStack == STACK_INIT_VALUE && infop.stackLimit == STACK_PAGE_LIMIT
  {
    mem.mappings := mem.mappings + [Mapping(FLAG_PAGE, FLAG_PAGE_SIZE, ProtReadWrite)];
    var flagPage := flagMap;
    FillFlagPage(mem, flagPage);

    var pages := StackPagesNum(infop.startStack, infop.stackLimit);
    var stackStart := StackMapStart(StackMapLength(pages));
    mem.mappings := mem.mappings + [Mapping(stackStart, StackMapLength(pages), ProtReadWriteExec)];

    regs.ecx := flagPage;
    infop.startStack := STACK_INIT_VALUE;
    infop.stackLimit := STACK_PAGE_LIMIT;
  }

  /** The failure path's loop: g_free on every slot of bprm->page. */
  method FreeArgPages(bprm: LinuxBinprm)
    requires bprm.Valid()
    requires forall i :: 0 <= i < MAX_ARG_PAGES ==> bprm.page[i] != Freed
    modifies bprm.page
    ensures forall i :: 0 <= i < MAX_ARG_PAGES ==> bprm.page[i] == Released(old(bprm.page[i]))
    ensures forall i :: 0 <= i < MAX_ARG_PAGES ==> bprm.page[i] != Held
  {
    for i := 0 to MAX_ARG_PAGES
      invariant forall j :: 0 <= j < i ==> bprm.page[j] == Released(old(bprm.page[j]))
      invariant forall j :: i <= j < MAX_ARG_PAGES ==> bprm.page[j] == old(bprm.page[j])
    {
      if bprm.page[i] == Held {
        bprm.page[i] := Freed;
      }
    }
  }

  /** The record's initialisation at the top of loader_exec. */
  method InitBinprm(bprm: LinuxBinprm, fdexec: OpenFile, filename: string,
                    argv: seq<HostPtr>, envp: seq<HostPtr>)
    requires bprm.Valid() && Null in argv && Null in envp
    modifies bprm, bprm.page
    ensures bprm.p == ARG_P_INIT
    ensures forall i :: 0 <= i < MAX_ARG_PAGES ==> bprm.page[i] == NoPage
    ensures bprm.fd == fdexec && bprm.filename == filename
    ensures CountOf(argv, bprm.argc) && bprm.argv == argv
    ensures CountOf(envp, bprm.envc) && bprm.envp == envp
    ensures bprm.eUid == old(bprm.eUid) && bprm.eGid == old(bprm.eGid)
  {
    bprm.p := TARGET_PAGE_SIZE * MAX_ARG_PAGES - SIZEOF_UINT;
    forall i | 0 <= i < MAX_ARG_PAGES {
      bprm.page[i] := NoPage;
    }
    bprm.fd := fdexec;
    bprm.filename := filename;
    bprm.argc := Count(argv);
    bprm.argv := argv;
    bprm.envc := Count(envp);
    bprm.envp := envp;
  }

  /** A format loader's call, with the effect it is taken to have. */
  method RunLoader(bprm: LinuxBinprm, infop: ImageInfo, mem: Memory, run: LoaderRun) returns (r: int)
    requires bprm.Valid()
    modifies bprm.page, infop, mem
    ensures r == run.retval
    ensures mem.words == old(mem.words) + run.words && mem.bytes == old(mem.bytes) + run.bytes
    ensures mem.mappings == old(mem.mappings) + run.mappings
    ensures infop.startStack == run.startStack && infop.stackLimit == run.stackLimit
    ensures infop.argStart == run.argStart && infop.argEnd == run.argEnd
    ensures forall i :: 0 <= i < MAX_ARG_PAGES ==>
              bprm.page[i] == if i in run.pages then Held else old(bprm.page[i])
  {
    infop.startStack, infop.stackLimit := run.startStack, run.stackLimit;
    infop.argStart, infop.argEnd := run.argStart, run.argEnd;
    forall i | 0 <= i < MAX_ARG_PAGES && i in run.pages {
      bprm.page[i] := Held;
    }
    mem.words, mem.bytes := mem.words + run.words, mem.bytes + run.bytes;
    mem.mappings := mem.mappings + run.mappings;
    r := run.retval;
  }

  /** The dispatch on the header's magic, made once prepare_binprm has succeeded:
      the matching loader runs, or the header is reported unknown with nothing touched. */
  method RunFormatLoader(bprm: LinuxBinprm, infop: ImageInfo, mem: Memory, host: Host)
    returns (known: bool, retval: int)
    requires bprm.Valid()
    modifies bprm.page, infop, mem
    ensures known <==> Sniff(bprm.buf[..], host.hasBflt) != Unrecognised
    ensures !known ==> bprm.page[..] == old(bprm.page[..]) && unchanged(infop) && unchanged(mem)
    ensures known ==>
              var run := if Sniff(bprm.buf[..], host.hasBflt) == CgcElf then host.elf else host.flt;
              && retval == run.retval
              && mem.words == old(mem.words) + run.words && mem.bytes == old(mem.bytes) + run.bytes
              && mem.mappings == old(mem.mappings) + run.mappings
              && infop.startStack == run.startStack && infop.stackLimit == run.stackLimit
              && infop.argStart == run.argStart && infop.argEnd == run.argEnd
              && forall i :: 0 <= i < MAX_ARG_PAGES ==>
                   bprm.page[i] == if i in run.pages then Held else old(bprm.page[i])
  {
    var format := Sniff(bprm.buf[..4], host.hasBflt);
    assert bprm.buf[..4] == bprm.buf[..][..4];
    known := true;
    if format == CgcElf {
      retval := RunLoader(bprm, infop, mem, host.elf);
    } else if format == Flat {
      retval := RunLoader(bprm, infop, mem, host.flt);
    } else {
      known, retval := false, -ENOEXEC;
    }
  }

  /** What the CGC block leaves behind, given the words, the mapping log and
      the stack values it started from. */
  ghost predicate CgcApplied(mem: Memory, infop: ImageInfo, regs: TargetRegs, flagMap: int,
                             words0: map<int, int>, mappings0: seq<Mapping>, ss: int, sl: int)
    requires 0 <= ss < ABI_RANGE && 0 <= sl < ABI_RANGE
    reads mem, infop, regs
  {
    && mem.mappings == mappings0 + [Mapping(FLAG_PAGE, FLAG_PAGE_SIZE, ProtReadWrite), StackMapping(ss, sl)]
    && FlagPageFilled(mem.words, flagMap)
    && FramedBy(words0, mem.words, flagMap, flagMap + FLAG_PAGE_SIZE)
    && regs.ecx == flagMap
    && infop.startStack == STACK_INIT_VALUE && infop.stackLimit == STACK_PAGE_LIMIT
  }

  /** Everything loader_exec does after the dispatch: the CGC block whatever
      retval is, then either the thread start or the release of every page slot. */
  method FinishExec(bprm: LinuxBinprm, infop: ImageInfo, regs: TargetRegs, mem: Memory, host: Host, retval: int)
    returns (st: Status)
    requires bprm.Valid()
    requires forall i :: 0 <= i < MAX_ARG_PAGES ==> bprm.page[i] != Freed
    requires 0 <= infop.startStack < ABI_RANGE && 0 <= infop.stackLimit < ABI_RANGE
    modifies mem`words, mem`mappings, infop`startStack, infop`stackLimit, regs, bprm.page
    ensures st == Returned(retval)
    ensures host.cgcUser ==>
              CgcApplied(mem, infop, regs, host.flagMap, old(mem.words), old(mem.mappings),
                         old(infop.startStack), old(infop.stackLimit))
    ensures !host.cgcUser ==>
              && mem.words == old(mem.words) && mem.mappings == old(mem.mappings)
              && regs.ecx == old(regs.ecx)
              && infop.startStack == old(infop.startStack) && infop.stackLimit == old(infop.stackLimit)
    ensures retval >= 0 ==> regs.initialised && bprm.page[..] == old(bprm.page[..])
    ensures retval < 0 ==>
              && regs.initialised == old(regs.initialised)
              && forall i :: 0 <= i < MAX_ARG_PAGES ==> bprm.page[i] == Released(old(bprm.page[i]))
  {
    if host.cgcUser {
      CgcSetup(mem, infop, regs, host.flagMap);
    }
    if retval >= 0 {
      // do_init_thread
      regs.initialised := true;
      return Returned(retval);
    }
    FreeArgPages(bprm);
    return Returned(retval);
  }

  /** The opening of loader_exec: the record filled in, then prepare_binprm. */
  method OpenExec(fdexec: OpenFile, filename: string, argv: seq<HostPtr>, envp: seq<HostPtr>,
                  bprm: LinuxBinprm, host: Host)
    returns (prep: Status)
    requires bprm.Valid() && fdexec.Valid()
    requires Null in argv && Null in envp
    modifies bprm, bprm.buf, bprm.page, fdexec`offset
    ensures bprm.p == ARG_P_INIT && bprm.fd == fdexec && bprm.filename == filename
    ensures CountOf(argv, bprm.argc) && bprm.argv == argv
    ensures CountOf(envp, bprm.envc) && bprm.envp == envp
    ensures forall i :: 0 <= i < MAX_ARG_PAGES ==> bprm.page[i] == NoPage
    ensures prep == PrepareOutcome(fdexec.status, fdexec.ioError, |fdexec.data| - old(fdexec.offset))
    // The credentials and the header prepare_binprm leaves in the record.
    ensures !ChecksPass(fdexec.status) ==>
              && bprm.eUid == old(bprm.eUid) && bprm.eGid == old(bprm.eGid)
              && bprm.buf[..] == old(bprm.buf[..]) && fdexec.offset == old(fdexec.offset)
    ensures ChecksPass(fdexec.status) ==>
              CredentialsFrom(fdexec.status.st, host.euid, host.egid, bprm.eUid, bprm.eGid)
    ensures prep.Returned? && prep.code >= 0 ==>
              && HeaderFrom(bprm.buf[..], fdexec.data, old(fdexec.offset), prep.code)
              && fdexec.offset == old(fdexec.offset) + prep.code
  {
    InitBinprm(bprm, fdexec, filename, argv, envp);
    prep := PrepareBinprm(bprm, host.euid, host.egid);
  }

  /** loader_exec. */
  method LoaderExec(fdexec: OpenFile, filename: string, argv: seq<HostPtr>, envp: seq<HostPtr>,
                    regs: TargetRegs, infop: ImageInfo, bprm: LinuxBinprm, mem: Memory, host: Host)
    returns (st: Status)
    requires bprm.Valid() && fdexec.Valid()
    requires Null in argv && Null in envp
    requires RunInRange(host.elf) && RunInRange(host.flt)
    requires 0 <= infop.startStack < ABI_RANGE && 0 <= infop.stackLimit < ABI_RANGE
    modifies bprm, bprm.buf, bprm.page, fdexec`offset, infop, regs, mem
    // The record, with the credentials and the header prepare_binprm leaves in it.
    ensures bprm.p == ARG_P_INIT && bprm.fd == fdexec && bprm.filename == filename
    ensures CountOf(argv, bprm.argc) && bprm.argv == argv
    ensures CountOf(envp, bprm.envc) && bprm.envp == envp
    ensures !ChecksPass(fdexec.status) ==>
              && bprm.eUid == old(bprm.eUid) && bprm.eGid == old(bprm.eGid)
              && bprm.buf[..] == old(bprm.buf[..]) && fdexec.offset == old(fdexec.offset)
    ensures ChecksPass(fdexec.status) ==>
              CredentialsFrom(fdexec.status.st, host.euid, host.egid, bprm.eUid, bprm.eGid)
    ensures var prep := PrepareOutcome(fdexec.status, fdexec.ioError, |fdexec.data| - old(fdexec.offset));
            prep.Returned? && prep.code >= 0 ==>
              && HeaderFrom(bprm.buf[..], fdexec.data, old(fdexec.offset), prep.code)
              && fdexec.offset == old(fdexec.offset) + prep.code
    // A failed header read ends the process before anything reaches the target.
    ensures var prep := PrepareOutcome(fdexec.status, fdexec.ioError, |fdexec.data| - old(fdexec.offset));
            prep.Exited? ==> st == prep && unchanged(mem, regs, infop)
    // An unknown magic returns at once: no loader, no CGC block, no page freed.
    ensures var prep := PrepareOutcome(fdexec.status, fdexec.ioError, |fdexec.data| - old(fdexec.offset));
            prep.Returned? && Dispatched(prep.code, bprm.buf[..], host) == NoFormat ==>
              && st == Returned(-ENOEXEC)
              && (forall i :: 0 <= i < MAX_ARG_PAGES ==> bprm.page[i] == NoPage)
              && unchanged(mem) && unchanged(regs) && unchanged(infop)
    // Otherwise: the loader's result, or prepare_binprm's error.
    ensures var prep := PrepareOutcome(fdexec.status, fdexec.ioError, |fdexec.data| - old(fdexec.offset));
            prep.Returned? && Dispatched(prep.code, bprm.buf[..], host) != NoFormat ==>
              var d := Dispatched(prep.code, bprm.buf[..], host);
              var retval := RetvalAfter(prep.code, d);
              var ss := if d.Ran? then d.run.startStack else old(infop.startStack);
              var sl := if d.Ran? then d.run.stackLimit else old(infop.stackLimit);
              && 0 <= ss < ABI_RANGE && 0 <= sl < ABI_RANGE
              && st == Returned(retval)
              // The string byte map changes only by the loader's own writes.
              && mem.bytes == BytesAfter(d, old(mem.bytes))
              && infop.argStart == (if d.Ran? then d.run.argStart else old(infop.argStart))
              && infop.argEnd == (if d.Ran? then d.run.argEnd else old(infop.argEnd))
              // The CGC block runs whatever retval is.
              && (host.cgcUser ==>
                    CgcApplied(mem, infop, regs, host.flagMap, WordsAfter(d, old(mem.words)),
                               MappingsAfter(d, old(mem.mappings)), ss, sl))
              && (!host.cgcUser ==>
                    && mem.words == WordsAfter(d, old(mem.words))
                    && mem.mappings == MappingsAfter(d, old(mem.mappings))
                    && regs.ecx == old(regs.ecx)
                    && infop.startStack == ss && infop.stackLimit == sl)
              // Success keeps the pages and starts the thread; failure frees every slot once.
              && (retval >= 0 ==>
                    && regs.initialised
                    && forall i :: 0 <= i < MAX_ARG_PAGES ==> bprm.page[i] == LoadedPage(d, i))
              && (retval < 0 ==>
                    && regs.initialised == old(regs.initialised)
                    && forall i :: 0 <= i < MAX_ARG_PAGES ==> bprm.page[i] == Released(LoadedPage(d, i)))
  {
    var prep := OpenExec(fdexec, filename, argv, envp, bprm, host);
    if prep.Exited? {
      return prep;
    }
    var retval := prep.code;
    ghost var d := Dispatched(retval, bprm.buf[..], host);

    if retval >= 0 {
      var known;
      known, retval := RunFormatLoader(bprm, infop, mem, host);
      if !known {
        return Returned(-ENOEXEC);
      }
    }
    assert retval == RetvalAfter(prep.code, d);
    assert mem.words == WordsAfter(d, old(mem.words)) && mem.bytes == BytesAfter(d, old(mem.bytes));
    assert mem.mappings == MappingsAfter(d, old(mem.mappings));
    assert forall i :: 0 <= i < MAX_ARG_PAGES ==> bprm.page[i] == LoadedPage(d, i);

    st := FinishExec(bprm, infop, regs, mem, host, retval);
  }
}
