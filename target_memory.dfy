/** The emulated (target) address space as the loader sees it: a map of
    abi_ulong words stored by address, a map of bytes holding the copied
    argument and environment strings, and the log of mapping requests. */
module TargetMemory {

  /** Protection asked of a target mapping. */
  datatype Prot = ProtReadWrite | ProtReadWriteExec

  /** A target_mmap request: `length` bytes at target address `start`. */
  datatype Mapping = Mapping(start: int, length: int, prot: Prot)

  /** Address of entry k of a table of n-byte words that begins at base. */
  function Slot(base: int, n: int, k: int): int
  {
    base + k * n
  }

  /** Entries of a word table lie strictly above one another, a whole word apart. */
  lemma SlotOrder(base: int, n: int, j: int, k: int)
    requires 0 < n && j < k
    ensures Slot(base, n, j) + n <= Slot(base, n, k)
  {
    assert Slot(base, n, k) - Slot(base, n, j) == (k - j) * n;
    assert (k - j) * n == (k - j - 1) * n + n;
    assert 0 <= (k - j - 1) * n;
  }

  /** Words of `after` agree with `before` outside [lo, hi), and every new word lies inside it. */
  ghost predicate FramedBy(before: map<int, int>, after: map<int, int>, lo: int, hi: int)
  {
    && (forall a :: a in before && !(lo <= a < hi) ==> a in after && after[a] == before[a])
    && (forall a :: a in after ==> a in before || lo <= a < hi)
  }

  /** The byte at address a is present and equals v. */
  ghost predicate ByteAt(bytes: map<int, bv8>, a: int, v: bv8)
  {
    a in bytes && bytes[a] == v
  }

  /** s sits at p as a C string: its bytes, none of them NUL, then a NUL. */
  ghost predicate CString(bytes: map<int, bv8>, p: int, s: seq<bv8>)
  {
    && 0 !in s
    && (forall k :: 0 <= k < |s| ==> ByteAt(bytes, p + k, s[k]))
    && ByteAt(bytes, p + |s|, 0)
  }

  /** blob sits byte for byte at p. */
  ghost predicate Placed(bytes: map<int, bv8>, p: int, blob: seq<bv8>)
  {
    forall k :: 0 <= k < |blob| ==> ByteAt(bytes, p + k, blob[k])
  }

  /** No string of the vector contains a NUL byte. */
  ghost predicate NoNul(strs: seq<seq<bv8>>)
  {
    forall i :: 0 <= i < |strs| ==> 0 !in strs[i]
  }

  /** The strings copied back to back, each followed by its NUL terminator:
      the block a format loader copies below the stack before the tables are built. */
  function Flatten(strs: seq<seq<bv8>>): seq<bv8>
  {
    if strs == [] then [] else Flatten(strs[..|strs| - 1]) + strs[|strs| - 1] + [0]
  }

  /** The bytes the strings take up, each counted with its terminator: the sum of strlen(s) + 1. */
  function SpanLen(strs: seq<seq<bv8>>): nat
  {
    if strs == [] then 0 else SpanLen(strs[..|strs| - 1]) + |strs[|strs| - 1]| + 1
  }

  /** Where string i of a vector laid out back to back from p begins. */
  function Offset(p: int, strs: seq<seq<bv8>>, i: nat): int
    requires i <= |strs|
  {
    p + SpanLen(strs[..i])
  }

  /** Each string starts right after the previous one's terminator. */
  lemma {:induction false} OffsetNext(p: int, strs: seq<seq<bv8>>, i: nat)
    requires i < |strs|
    ensures Offset(p, strs, i + 1) == Offset(p, strs, i) + |strs[i]| + 1
  {
    assert strs[..i + 1][..i] == strs[..i];
  }

  lemma {:induction false} FlattenLength(strs: seq<seq<bv8>>)
    ensures |Flatten(strs)| == SpanLen(strs)
  {
    if strs != [] {
      FlattenLength(strs[..|strs| - 1]);
    }
  }

  /** The span of two vectors laid out one after the other is the sum of their spans. */
  lemma {:induction false} SpanLenAppend(a: seq<seq<bv8>>, b: seq<seq<bv8>>)
    ensures SpanLen(a + b) == SpanLen(a) + SpanLen(b)
  {
    if b == [] {
      assert a + b == a;
    } else {
      var ab := a + b;
      assert ab[..|ab| - 1] == a + b[..|b| - 1];
      assert ab[|ab| - 1] == b[|b| - 1];
      SpanLenAppend(a, b[..|b| - 1]);
    }
  }

  /** The layout of the first i strings is a prefix of the layout of all of them. */
  lemma {:induction false} FlattenPrefix(strs: seq<seq<bv8>>, i: nat)
    requires i <= |strs|
    ensures Flatten(strs[..i]) <= Flatten(strs)
    decreases |strs| - i
  {
    if i == |strs| {
      assert strs[..i] == strs;
    } else {
      var init := strs[..|strs| - 1];
      assert init[..i] == strs[..i];
      FlattenPrefix(init, i);
      assert Flatten(strs) == Flatten(init) + strs[|strs| - 1] + [0];
    }
  }

  /** A NUL-free string followed by a NUL, found at offset q of a block placed
      at p, is a C string at p + q. */
  lemma {:induction false} PlacedCString(bytes: map<int, bv8>, p: int, blob: seq<bv8>, q: nat, s: seq<bv8>)
    requires Placed(bytes, p, blob) && 0 !in s
    requires q + |s| < |blob| && blob[q..q + |s| + 1] == s + [0]
    ensures CString(bytes, p + q, s)
  {
    forall k | 0 <= k < |s|
      ensures ByteAt(bytes, p + q + k, s[k])
    {
      assert s[k] == blob[q..q + |s| + 1][k] == blob[q + k];
      assert p + q + k == p + (q + k);
    }
    assert blob[q + |s|] == blob[q..q + |s| + 1][|s|] == 0;
    assert p + q + |s| == p + (q + |s|);
  }

  /** Round trip of the string block: when the vector is laid out at p, string i
      is read back, as a C string, at p plus the span of the strings before it. */
  lemma {:induction false} StringAtPointer(bytes: map<int, bv8>, p: int, strs: seq<seq<bv8>>, i: nat)
    requires NoNul(strs) && Placed(bytes, p, Flatten(strs)) && i < |strs|
    ensures CString(bytes, Offset(p, strs, i), strs[i])
  {
    var blob := Flatten(strs);
    var upto := strs[..i + 1];
    assert upto[..i] == strs[..i];
    var pre := Flatten(upto);
    var s := strs[i];
    assert pre == Flatten(strs[..i]) + s + [0];
    FlattenPrefix(strs, i + 1);
    FlattenLength(strs[..i]);
    var q := SpanLen(strs[..i]);
    assert pre[q..] == s + [0];
    assert blob[q..q + |s| + 1] == pre[q..];
    PlacedCString(bytes, p, blob, q, s);
  }

  /** Each string of the vector sits, as a C string, at p plus the span of the strings before it. */
  ghost predicate LaidOut(bytes: map<int, bv8>, p: int, strs: seq<seq<bv8>>)
  {
    forall i {:trigger Offset(p, strs, i)} :: 0 <= i < |strs| ==> CString(bytes, Offset(p, strs, i), strs[i])
  }

  /** In a combined vector, the arguments sit where they would sit alone. */
  lemma {:induction false} OffsetInPrefix(p: int, args: seq<seq<bv8>>, envs: seq<seq<bv8>>, i: nat)
    requires i <= |args|
    ensures Offset(p, args + envs, i) == Offset(p, args, i)
  {
    assert (args + envs)[..i] == args[..i];
  }

  /** In a combined vector, the environment strings sit where they would sit
      alone in a vector laid out from the end of the arguments. */
  lemma {:induction false} OffsetInSuffix(p: int, args: seq<seq<bv8>>, envs: seq<seq<bv8>>, i: nat)
    requires i <= |envs|
    ensures Offset(p, args + envs, |args| + i) == Offset(p + SpanLen(args), envs, i)
  {
    assert (args + envs)[..|args| + i] == args + envs[..i];
    SpanLenAppend(args, envs[..i]);
  }

  /** Argument i, read back from the combined block. */
  lemma {:induction false} ArgAt(bytes: map<int, bv8>, p: int, args: seq<seq<bv8>>, envs: seq<seq<bv8>>, i: nat)
    requires NoNul(args + envs) && Placed(bytes, p, Flatten(args + envs)) && i < |args|
    ensures CString(bytes, Offset(p, args, i), args[i])
  {
    StringAtPointer(bytes, p, args + envs, i);
    OffsetInPrefix(p, args, envs, i);
    assert (args + envs)[i] == args[i];
  }

  /** Environment string i, read back from the combined block, past the arguments. */
  lemma {:induction false} EnvAt(bytes: map<int, bv8>, p: int, args: seq<seq<bv8>>, envs: seq<seq<bv8>>, i: nat)
    requires NoNul(args + envs) && Placed(bytes, p, Flatten(args + envs)) && i < |envs|
    ensures CString(bytes, Offset(p + SpanLen(args), envs, i), envs[i])
  {
    StringAtPointer(bytes, p, args + envs, |args| + i);
    OffsetInSuffix(p, args, envs, i);
    assert (args + envs)[|args| + i] == envs[i];
  }

  /** The argument strings followed by the environment strings, copied as one
      block to p, read back as the two vectors: the arguments from p, the
      environment from the end of the arguments. */
  lemma {:induction false} PlacedLaidOut(bytes: map<int, bv8>, p: int, args: seq<seq<bv8>>, envs: seq<seq<bv8>>)
    requires NoNul(args + envs) && Placed(bytes, p, Flatten(args + envs))
    ensures LaidOut(bytes, p, args)
    ensures LaidOut(bytes, p + SpanLen(args), envs)
  {
    forall i | 0 <= i < |args|
      ensures CString(bytes, Offset(p, args, i), args[i])
    {
      ArgAt(bytes, p, args, envs, i);
    }
    forall i | 0 <= i < |envs|
      ensures CString(bytes, Offset(p + SpanLen(args), envs, i), envs[i])
    {
      EnvAt(bytes, p, args, envs, i);
    }
  }

  class Memory {
    /** abi_ulong words written through put_user_ual, by target address. */
    var words: map<int, int>
    /** The bytes of the copied argument and environment strings, by target
        address. This map is kept apart from `words`: a word store does not
        show up here. */
    var bytes: map<int, bv8>
    /** Mapping requests made so far, oldest first. */
    var mappings: seq<Mapping>

    /** put_user_ual: store one word at a target address (writes are assumed to succeed). */
    method PutUserUal(v: int, addr: int)
      modifies this`words
      ensures words == old(words)[addr := v]
    {
      words := words[addr := v];
    }

    /** target_strlen: the length of the C string that sits at p in the target. */
    method Strlen(p: int, ghost s: seq<bv8>) returns (len: nat)
      requires CString(bytes, p, s)
      ensures len == |s|
    {
      len := 0;
      if 0 < |s| {
        assert ByteAt(bytes, p + 0, s[0]);
      }
      while bytes[p + len] != 0
        invariant len <= |s|
        invariant len < |s| ==> ByteAt(bytes, p + len, s[len])
        invariant len == |s| ==> ByteAt(bytes, p + len, 0)
        decreases |s| - len
      {
        len := len + 1;
        if len < |s| {
          assert ByteAt(bytes, p + len, s[len]);
        }
      }
    }
  }
}
