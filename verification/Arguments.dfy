/** How code/userprog/addrspace.cc lays out the arguments of a program at the top of its address space. */
module Arguments {
  import opened Bytes
  import opened DiskLayout

  /** The arguments, each with its terminator, one after another. */
  function Strings(args: seq<seq<Byte>>): (s: seq<Byte>)
  {
    if args == [] then [] else Strings(args[..|args| - 1]) + args[|args| - 1] + [0]
  }

  /** An address as an unsigned word in memory. */
  function AddressBytes(a: nat): (s: seq<Byte>)
    ensures |s| == 4
  {
    LowBytes(a, 4)
  }

  /** Where the strings start, behind a table of one more word than there are arguments. */
  function StringsAt(base: nat, argc: nat): (a: nat)
  {
    base + 4 * (argc + 1)
  }

  /** The address of argument `i`. */
  function ArgumentAddress(base: nat, args: seq<seq<Byte>>, i: nat): (a: nat)
    requires i <= |args|
  {
    StringsAt(base, |args|) + |Strings(args[..i])|
  }

  /** The first `n` of `bytes` are found at address `a`. */
  ghost predicate HasBytes(v: seq<Byte>, a: nat, bytes: seq<Byte>, n: nat)
    requires n <= |bytes|
  {
    n == 0 || (HasBytes(v, a, bytes, n - 1) && a + n <= |v| && v[a + n - 1] == bytes[n - 1])
  }

  ghost predicate ZeroRange(v: seq<Byte>, i: nat, j: nat)
  {
    j <= i || (ZeroRange(v, i, j - 1) && j <= |v| && v[j - 1] == 0)
  }

  /** The first `k` words of the table are the addresses of the arguments. */
  ghost predicate TableAt(v: seq<Byte>, base: nat, args: seq<seq<Byte>>, k: nat)
    requires k <= |args|
  {
    || k == 0
    || (&& TableAt(v, base, args, k - 1)
        && HasBytes(v, base + 4 * (k - 1), AddressBytes(ArgumentAddress(base, args, k - 1)), 4))
  }

  /** The first `k` arguments, with their terminators, are at those addresses. */
  ghost predicate ArgumentsAt(v: seq<Byte>, base: nat, args: seq<seq<Byte>>, k: nat)
    requires k <= |args|
  {
    || k == 0
    || (&& ArgumentsAt(v, base, args, k - 1)
        && HasBytes(v, ArgumentAddress(base, args, k - 1), args[k - 1] + [0], |args[k - 1]| + 1))
  }

  /** The first `k` arguments are in place. */
  ghost predicate Placed(v: seq<Byte>, base: nat, args: seq<seq<Byte>>, k: nat)
    requires k <= |args|
  {
    && ArgumentAddress(base, args, |args|) <= |v|
    && TableAt(v, base, args, k) && ArgumentsAt(v, base, args, k)
  }

  /** The two memories agree from `i` up to `j`. */
  ghost predicate SameRange(v: seq<Byte>, v': seq<Byte>, i: nat, j: nat)
  {
    j <= |v| && j <= |v'| && forall k :: i <= k < j ==> v'[k] == v[k]
  }

  lemma {:induction false} HasBytesFrame(v: seq<Byte>, v': seq<Byte>, a: nat, bytes: seq<Byte>, n: nat)
    requires n <= |bytes| && HasBytes(v, a, bytes, n) && SameRange(v, v', a, a + n)
    ensures HasBytes(v', a, bytes, n)
  {
    if n > 0 {
      HasBytesFrame(v, v', a, bytes, n - 1);
    }
  }

  lemma {:induction false} ZeroFrame(v: seq<Byte>, v': seq<Byte>, i: nat, j: nat)
    requires ZeroRange(v, i, j) && SameRange(v, v', i, j)
    ensures ZeroRange(v', i, j)
  {
    if j > i {
      ZeroFrame(v, v', i, j - 1);
    }
  }

  lemma {:induction false} ZeroPart(v: seq<Byte>, i: nat, i': nat, j: nat)
    requires ZeroRange(v, i, j) && i <= i'
    ensures ZeroRange(v, i', j)
  {
    if j > i' {
      ZeroPart(v, i, i', j - 1);
    }
  }

  lemma {:induction false} TableFrame(v: seq<Byte>, v': seq<Byte>, base: nat, args: seq<seq<Byte>>, k: nat)
    requires k <= |args| && TableAt(v, base, args, k) && SameRange(v, v', base, base + 4 * k)
    ensures TableAt(v', base, args, k)
  {
    if k > 0 {
      TableFrame(v, v', base, args, k - 1);
      HasBytesFrame(v, v', base + 4 * (k - 1), AddressBytes(ArgumentAddress(base, args, k - 1)), 4);
    }
  }

  lemma {:induction false} ArgumentsFrame(v: seq<Byte>, v': seq<Byte>, base: nat, args: seq<seq<Byte>>, k: nat)
    requires k <= |args| && ArgumentsAt(v, base, args, k)
    requires SameRange(v, v', StringsAt(base, |args|), ArgumentAddress(base, args, k))
    ensures ArgumentsAt(v', base, args, k)
  {
    if k > 0 {
      NextAddress(base, args, k - 1);
      ArgumentsFrame(v, v', base, args, k - 1);
      HasBytesFrame(v, v', ArgumentAddress(base, args, k - 1), args[k - 1] + [0], |args[k - 1]| + 1);
    }
  }

  /** Each argument starts behind the terminator of the one before. */
  lemma NextAddress(base: nat, args: seq<seq<Byte>>, i: nat)
    requires i < |args|
    ensures ArgumentAddress(base, args, i + 1) == ArgumentAddress(base, args, i) + |args[i]| + 1
    ensures ArgumentAddress(base, args, i + 1) <= ArgumentAddress(base, args, |args|)
  {
    assert args[..i + 1][..i] == args[..i];
    StringsPrefix(args, i + 1);
    assert args[..|args|] == args;
  }

  lemma {:induction false} StringsPrefix(args: seq<seq<Byte>>, k: nat)
    requires k <= |args|
    ensures |Strings(args[..k])| <= |Strings(args)|
  {
    if k == |args| {
      assert args[..k] == args;
    } else {
      StringsPrefix(args[..|args| - 1], k);
      assert args[..|args| - 1][..k] == args[..k];
    }
  }

  lemma {:induction false} SpliceHas(v: seq<Byte>, a: nat, bytes: seq<Byte>, n: nat)
    requires a + |bytes| <= |v| && n <= |bytes|
    ensures HasBytes(Splice(v, a, bytes), a, bytes, n)
  {
    if n > 0 {
      SpliceHas(v, a, bytes, n - 1);
    }
  }

  /** A word written at `at`, then a string at `address` behind it. */
  lemma {:induction false} TwoWrites(v: seq<Byte>, base: nat, at: nat, start: nat, address: nat, word: seq<Byte>,
                                     str: seq<Byte>, v1: seq<Byte>, v2: seq<Byte>)
    requires |word| == 4 && base <= at && at + 4 <= start <= address && address + |str| <= |v|
    requires v1 == Splice(v, at, word) && v2 == Splice(v1, address, str)
    ensures SameRange(v, v2, base, at) && SameRange(v, v2, at + 4, start) && SameRange(v, v2, start, address)
    ensures |v2| == |v|
    ensures HasBytes(v2, at, word, 4) && HasBytes(v2, address, str, |str|)
  {
    SpliceHas(v, at, word, 4);
    HasBytesFrame(v1, v2, at, word, 4);
    SpliceHas(v1, address, str, |str|);
  }

  /** One turn of the loop: the address of the next argument, then its bytes. */
  lemma PlaceNext(v: seq<Byte>, base: nat, args: seq<seq<Byte>>, k: nat, address: nat, word: seq<Byte>, str: seq<Byte>,
                  v1: seq<Byte>, v2: seq<Byte>)
    requires k < |args| && Placed(v, base, args, k) && address == ArgumentAddress(base, args, k)
    requires word == AddressBytes(address) && str == args[k] + [0] && address + |str| <= |v|
    requires v1 == Splice(v, base + 4 * k, word) && v2 == Splice(v1, address, str)
    ensures Placed(v2, base, args, k + 1) && SameRange(v, v2, base + 4 * (k + 1), StringsAt(base, |args|))
  {
    TwoWrites(v, base, base + 4 * k, StringsAt(base, |args|), address, word, str, v1, v2);
    Placing(v, base, args, k, word, str, v2);
  }

  lemma Placing(v: seq<Byte>, base: nat, args: seq<seq<Byte>>, k: nat, word: seq<Byte>, str: seq<Byte>, v2: seq<Byte>)
    requires k < |args| && Placed(v, base, args, k) && |v2| == |v|
    requires var at, start, address := base + 4 * k, StringsAt(base, |args|), ArgumentAddress(base, args, k);
             && SameRange(v, v2, base, at) && SameRange(v, v2, at + 4, start) && SameRange(v, v2, start, address)
             && word == AddressBytes(address) && str == args[k] + [0]
             && HasBytes(v2, at, word, 4) && HasBytes(v2, address, str, |str|)
    ensures Placed(v2, base, args, k + 1)
  {
    TableFrame(v, v2, base, args, k);
    ArgumentsFrame(v, v2, base, args, k);
  }

  /** What the reader of the table finds in it. */
  lemma {:induction false} Found(v: seq<Byte>, base: nat, args: seq<seq<Byte>>, k: nat, i: nat)
    requires i < k <= |args| && TableAt(v, base, args, k) && ArgumentsAt(v, base, args, k)
    ensures HasBytes(v, base + 4 * i, AddressBytes(ArgumentAddress(base, args, i)), 4)
    ensures HasBytes(v, ArgumentAddress(base, args, i), args[i] + [0], |args[i]| + 1)
  {
    if i < k - 1 {
      Found(v, base, args, k - 1, i);
    }
  }

  lemma {:induction false} ByteFound(v: seq<Byte>, a: nat, bytes: seq<Byte>, n: nat, i: nat)
    requires i < n <= |bytes| && HasBytes(v, a, bytes, n)
    ensures a + i < |v| && v[a + i] == bytes[i]
  {
    if i < n - 1 {
      ByteFound(v, a, bytes, n - 1, i);
    }
  }

  /** Of the word that ends the table, the first byte is zero and the others are as they were in `was`. */
  ghost predicate Ended(was: seq<Byte>, v: seq<Byte>, base: nat, argc: nat)
  {
    var end := base + 4 * argc;
    end + 4 <= |v| && v[end] == 0 && SameRange(was, v, end + 1, end + 4)
  }

  /** Writing the byte that ends the table leaves the arguments in place. */
  lemma EndKeeps(v: seq<Byte>, base: nat, args: seq<seq<Byte>>, end: nat, v': seq<Byte>)
    requires Placed(v, base, args, |args|) && end == base + 4 * |args| && StringsAt(base, |args|) <= |v|
    requires v' == Splice(v, end, [0])
    ensures Placed(v', base, args, |args|) && Ended(v, v', base, |args|) && SameRange(v, v', 0, base)
  {
    TableFrame(v, v', base, args, |args|);
    ArgumentsFrame(v, v', base, args, |args|);
  }

  /**
    The table ends in a zero word if and only if the other three bytes of that word were zero before, as
    they are on a fresh page; the arguments lie behind it without overlap.
   */
  lemma TableEnds(was: seq<Byte>, v: seq<Byte>, base: nat, args: seq<seq<Byte>>)
    requires Ended(was, v, base, |args|)
    ensures var end := base + 4 * |args|;
            && end + 4 == StringsAt(base, |args|) <= |v| && end + 4 <= |was|
            && (v[end..end + 4] == [0, 0, 0, 0] <==> was[end + 1..end + 4] == [0, 0, 0])
    ensures forall i, j :: 0 <= i < j < |args| ==>
              ArgumentAddress(base, args, i) + |args[i]| + 1 <= ArgumentAddress(base, args, j)
  {
    var end := base + 4 * |args|;
    ZeroTail(was, v, end);
    forall i, j | 0 <= i < j < |args|
      ensures ArgumentAddress(base, args, i) + |args[i]| + 1 <= ArgumentAddress(base, args, j)
    {
      Spaced(base, args, i, j);
    }
  }

  lemma ZeroTail(was: seq<Byte>, v: seq<Byte>, end: nat)
    requires end + 4 <= |v| && end + 4 <= |was| && v[end] == 0 && SameRange(was, v, end + 1, end + 4)
    ensures v[end..end + 4] == [0, 0, 0, 0] <==> was[end + 1..end + 4] == [0, 0, 0]
  {
    assert v[end..end + 4] == [v[end], v[end + 1], v[end + 2], v[end + 3]];
    assert was[end + 1..end + 4] == [was[end + 1], was[end + 2], was[end + 3]];
  }

  lemma Spaced(base: nat, args: seq<seq<Byte>>, i: nat, j: nat)
    requires i < j < |args|
    ensures ArgumentAddress(base, args, i) + |args[i]| + 1 <= ArgumentAddress(base, args, j)
  {
    if i + 1 < j {
      Spaced(base, args, i, j - 1);
      NextAddress(base, args, j - 1);
    } else {
      NextAddress(base, args, i);
    }
  }
}
