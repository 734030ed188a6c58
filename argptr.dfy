/** loader_build_argptr: the argv and envp pointer tables and the argc word,
    laid out on the target stack below a given stack pointer, pointing into the
    argument and environment strings that already sit in target memory. */
module ArgPtr {
  import opened TargetMemory
  import opened Image

  /** 2^(8n): the number of values an n-byte abi_ulong can hold. */
  function WordLimit(n: nat): nat
  {
    if n == 0 then 1 else 256 * WordLimit(n - 1)
  }

  /** Start of the envp table: envc pointers and a NULL, directly below sp. */
  function EnvpTable(sp: int, envc: int, n: int): int
  {
    sp - (envc + 1) * n
  }

  /** Start of the argv table: argc pointers and a NULL, directly below the envp table. */
  function ArgvTable(sp: int, envc: int, argc: int, n: int): int
  {
    EnvpTable(sp, envc, n) - (argc + 1) * n
  }

  /** Where argc is stored: one word below the argv table, or three words below
      when the two table addresses are pushed in between. */
  function ArgcWord(sp: int, envc: int, argc: int, n: int, pushPtr: bool): int
  {
    ArgvTable(sp, envc, argc, n) - (if pushPtr then 3 else 1) * n
  }

  /** Number of words the layout takes: both tables with their terminators,
      argc, and the two pushed table addresses when asked for. */
  function FrameWords(envc: int, argc: int, pushPtr: bool): int
  {
    envc + argc + 3 + (if pushPtr then 2 else 0)
  }

  /** The pieces tile the frame from the top down, without gaps: envp table
      highest, argv table right below it, then the pushed addresses, then argc. */
  lemma LayoutTiles(sp: int, envc: int, argc: int, n: int, pushPtr: bool)
    requires 0 < n && 0 <= envc && 0 <= argc
    ensures Slot(EnvpTable(sp, envc, n), n, envc + 1) == sp
    ensures Slot(ArgvTable(sp, envc, argc, n), n, argc + 1) == EnvpTable(sp, envc, n)
    ensures ArgcWord(sp, envc, argc, n, pushPtr) == sp - FrameWords(envc, argc, pushPtr) * n
    ensures ArgcWord(sp, envc, argc, n, pushPtr) < ArgvTable(sp, envc, argc, n)
    ensures ArgvTable(sp, envc, argc, n) < EnvpTable(sp, envc, n) < sp
  {
    var e := EnvpTable(sp, envc, n);
    var a := ArgvTable(sp, envc, argc, n);
    assert (envc + 1) * n == envc * n + n;
    assert (argc + 1) * n == argc * n + n;
    assert 0 <= envc * n && 0 <= argc * n;
    var k := if pushPtr then 3 else 1;
    assert FrameWords(envc, argc, pushPtr) * n == (envc + 1) * n + (argc + 1) * n + k * n;
  }

  /** The table at tab holds, for each string, p plus the span of the strings
      before it, and then a NULL. */
  ghost predicate Table(words: map<int, int>, tab: int, n: int, p: int, strs: seq<seq<bv8>>)
  {
    && (forall i :: 0 <= i < |strs| ==>
          Slot(tab, n, i) in words && words[Slot(tab, n, i)] == Offset(p, strs, i))
    && Slot(tab, n, |strs|) in words && words[Slot(tab, n, |strs|)] == 0
  }

  /** Round trip of a table: following entry i of a table whose strings are
      laid out at p reads back, as a C string, exactly string i. */
  lemma TableReadsBack(words: map<int, int>, bytes: map<int, bv8>, tab: int, n: int, p: int,
                       strs: seq<seq<bv8>>, i: int)
    requires Table(words, tab, n, p, strs) && LaidOut(bytes, p, strs) && 0 <= i < |strs|
    ensures Slot(tab, n, i) in words && CString(bytes, words[Slot(tab, n, i)], strs[i])
  {
    assert words[Slot(tab, n, i)] == Offset(p, strs, i);
  }

  /** A table survives writes made entirely above it. */
  lemma TableKept(w: map<int, int>, w': map<int, int>, tab: int, n: int, p: int, strs: seq<seq<bv8>>, lo: int, hi: int)
    requires 0 < n && Table(w, tab, n, p, strs) && FramedBy(w, w', lo, hi)
    requires Slot(tab, n, |strs|) < lo
    ensures Table(w', tab, n, p, strs)
  {
    forall i | 0 <= i < |strs|
      ensures Slot(tab, n, i) < lo
    {
      SlotOrder(tab, n, i, |strs|);
    }
  }

  /** Two framed steps make one framed step over a range that covers both. */
  lemma FramedCompose(w0: map<int, int>, w1: map<int, int>, w2: map<int, int>,
                      lo: int, hi: int, lo1: int, hi1: int, lo2: int, hi2: int)
    requires FramedBy(w0, w1, lo1, hi1) && FramedBy(w1, w2, lo2, hi2)
    requires lo <= lo1 && hi1 <= hi && lo <= lo2 && hi2 <= hi
    ensures FramedBy(w0, w2, lo, hi)
  {
  }

  /** The first k entries of the table at tab are written, and so far every
      change to the words lies in [tab, hi). */
  ghost predicate Partial(w0: map<int, int>, w: map<int, int>, tab: int, n: int, p: int,
                          strs: seq<seq<bv8>>, k: nat, hi: int)
    requires k <= |strs|
  {
    && (forall j :: 0 <= j < k ==> Slot(tab, n, j) in w && w[Slot(tab, n, j)] == Offset(p, strs, j))
    && FramedBy(w0, w, tab, hi)
  }

  /** Writing entry k keeps the entries below it and stays inside the table. */
  lemma PartialStep(w0: map<int, int>, w: map<int, int>, tab: int, n: int, p: int,
                    strs: seq<seq<bv8>>, k: nat)
    requires 0 < n && k < |strs| && Partial(w0, w, tab, n, p, strs, k, Slot(tab, n, |strs| + 1))
    ensures Partial(w0, w[Slot(tab, n, k) := Offset(p, strs, k)], tab, n, p, strs, k + 1, Slot(tab, n, |strs| + 1))
  {
    forall j | 0 <= j < k
      ensures Slot(tab, n, j) < Slot(tab, n, k)
    {
      SlotOrder(tab, n, j, k);
    }
    SlotOrder(tab, n, k, |strs| + 1);
    if 0 < k {
      SlotOrder(tab, n, 0, k);
    }
  }

  /** Writing the NULL after the last entry completes the table. */
  lemma PartialDone(w0: map<int, int>, w: map<int, int>, tab: int, n: int, p: int, strs: seq<seq<bv8>>)
    requires 0 < n && Partial(w0, w, tab, n, p, strs, |strs|, Slot(tab, n, |strs| + 1))
    ensures Table(w[Slot(tab, n, |strs|) := 0], tab, n, p, strs)
    ensures FramedBy(w0, w[Slot(tab, n, |strs|) := 0], tab, Slot(tab, n, |strs| + 1))
  {
    forall j | 0 <= j < |strs|
      ensures Slot(tab, n, j) < Slot(tab, n, |strs|)
    {
      SlotOrder(tab, n, j, |strs|);
    }
    SlotOrder(tab, n, |strs|, |strs| + 1);
    if 0 < |strs| {
      SlotOrder(tab, n, 0, |strs|);
    }
  }

  /** One pointer table: a walk over the strings that sit back to back at p,
      storing each string's address in the next word of the table, then a NULL.
      Returns the address just past the last string's terminator. */
  method PutTable(mem: Memory, tab: int, n: int, count: int, p: int, ghost strs: seq<seq<bv8>>)
    returns (end: int)
    requires 0 < n && count == |strs| && LaidOut(mem.bytes, p, strs)
    modifies mem`words
    ensures end == p + SpanLen(strs)
    ensures Table(mem.words, tab, n, p, strs)
    ensures FramedBy(old(mem.words), mem.words, tab, Slot(tab, n, count + 1))
  {
    var cursor := tab;
    var str := p;
    var k := 0;
    while k < count
      invariant 0 <= k <= count
      invariant cursor == Slot(tab, n, k)
      invariant str == Offset(p, strs, k)
      invariant Partial(old(mem.words), mem.words, tab, n, p, strs, k, Slot(tab, n, count + 1))
    {
      PartialStep(old(mem.words), mem.words, tab, n, p, strs, k);
      mem.PutUserUal(str, cursor);
      cursor := cursor + n;
      var len := mem.Strlen(str, strs[k]);
      OffsetNext(p, strs, k);
      str := str + len + 1;
      k := k + 1;
    }
    PartialDone(old(mem.words), mem.words, tab, n, p, strs);
    mem.PutUserUal(0, cursor);
    assert strs[..count] == strs;
    end := str;
  }

  /** The two table addresses, when asked for, and then argc, stored word by
      word downward from the argv table. */
  method PushHeader(mem: Memory, argv: int, envp: int, argc: int, pushPtr: bool, n: int)
    returns (top: int)
    requires 0 < n
    modifies mem`words
    ensures top == argv - (if pushPtr then 3 else 1) * n
    ensures top in mem.words && mem.words[top] == argc
    ensures pushPtr ==>
              && argv - n in mem.words && mem.words[argv - n] == envp
              && argv - 2 * n in mem.words && mem.words[argv - 2 * n] == argv
    ensures FramedBy(old(mem.words), mem.words, top, argv)
  {
    top := argv;
    if pushPtr {
      top := top - n;
      mem.PutUserUal(envp, top);
      top := top - n;
      mem.PutUserUal(argv, top);
    }
    top := top - n;
    mem.PutUserUal(argc, top);
  }

  /** Builds the tables. n is sizeof(abi_ulong); args and envs are the strings
      that the caller has already copied, back to back, to stringp. */
  method LoaderBuildArgptr(mem: Memory, info: ImageInfo, envc: int, argc: int, sp: int,
                           stringp: int, pushPtr: bool, n: int,
                           ghost args: seq<seq<bv8>>, ghost envs: seq<seq<bv8>>)
    returns (r: int)
    requires 0 < n
    requires argc == |args| && envc == |envs|
    requires NoNul(args + envs) && Placed(mem.bytes, stringp, Flatten(args + envs))
    // Every address and pointer stays a valid abi_ulong: nothing wraps.
    requires FrameWords(envc, argc, pushPtr) * n <= sp < WordLimit(n)
    requires 0 <= stringp && stringp + SpanLen(args + envs) < WordLimit(n)
    // The frame does not overlap the strings.
    requires sp <= stringp || stringp + SpanLen(args + envs) <= sp - FrameWords(envc, argc, pushPtr) * n
    modifies mem`words, info`argStart, info`argEnd
    ensures r == sp - FrameWords(envc, argc, pushPtr) * n
    ensures r == ArgcWord(sp, envc, argc, n, pushPtr)
    // argc, and the pushed table addresses.
    ensures r in mem.words && mem.words[r] == argc
    ensures pushPtr ==>
              && ArgvTable(sp, envc, argc, n) - n in mem.words
              && mem.words[ArgvTable(sp, envc, argc, n) - n] == EnvpTable(sp, envc, n)
              && ArgvTable(sp, envc, argc, n) - 2 * n in mem.words
              && mem.words[ArgvTable(sp, envc, argc, n) - 2 * n] == ArgvTable(sp, envc, argc, n)
    // The argument span.
    ensures info.argStart == stringp && info.argEnd == stringp + SpanLen(args)
    // argv points at the argument strings, envp at the environment strings that follow them.
    ensures Table(mem.words, ArgvTable(sp, envc, argc, n), n, info.argStart, args)
    ensures LaidOut(mem.bytes, info.argStart, args)
    ensures Table(mem.words, EnvpTable(sp, envc, n), n, info.argEnd, envs)
    ensures LaidOut(mem.bytes, info.argEnd, envs)
    // Nothing else changes.
    ensures FramedBy(old(mem.words), mem.words, r, sp)
    ensures mem.bytes == old(mem.bytes)
  {
    LayoutTiles(sp, envc, argc, n, pushPtr);
    PlacedLaidOut(mem.bytes, stringp, args, envs);

    var top := sp;
    top := top - (envc + 1) * n;
    var envp := top;
    top := top - (argc + 1) * n;
    var argv := top;
    top := PushHeader(mem, argv, envp, argc, pushPtr, n);
    ghost var w1 := mem.words;

    info.argStart := stringp;
    var argEnd := PutTable(mem, argv, n, argc, stringp, args);
    ghost var w2 := mem.words;
    info.argEnd := argEnd;
    FramedCompose(old(mem.words), w1, w2, top, sp, top, argv, argv, envp);

    var strEnd := PutTable(mem, envp, n, envc, argEnd, envs);
    TableKept(w2, mem.words, argv, n, stringp, args, envp, sp);
    FramedCompose(old(mem.words), w2, mem.words, top, sp, top, sp, envp, sp);
    assert FramedBy(w1, mem.words, argv, sp) by {
      FramedCompose(w1, w2, mem.words, argv, sp, argv, envp, envp, sp);
    }
    r := top;
  }
}
