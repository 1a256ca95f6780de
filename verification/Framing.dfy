/** recv_func of the stream client: cutting a byte stream into messages of equal size. */
module Framing {
  import opened Seqs

  /** The full n-byte blocks of a byte string. */
  function Blocks(s: string, n: nat): seq<string>
    requires n > 0
    decreases |s|
  {
    if |s| < n then [] else [s[..n]] + Blocks(s[n..], n)
  }

  /** What follows the last full block. */
  function Residue(s: string, n: nat): string
    requires n > 0
    decreases |s|
  {
    if |s| < n then s else Residue(s[n..], n)
  }

  /** `recved_str` and the messages handed to handle_one_msg so far. */
  datatype Frame = Frame(residue: string, emitted: seq<string>)

  /** The effect of one call to recv_func. */
  function Reframe(f: Frame, n: nat, chunk: string): Frame
    requires n > 0
  {
    Frame(Residue(f.residue + chunk, n), f.emitted + Blocks(f.residue + chunk, n))
  }

  function ReframeAll(f: Frame, n: nat, chunks: seq<string>): Frame
    requires n > 0
  {
    if chunks == [] then f else Reframe(ReframeAll(f, n, chunks[..|chunks| - 1]), n, chunks[|chunks| - 1])
  }

  /** The residue is the remainder, shorter than a block, and the blocks take the rest. */
  lemma {:induction false} BlocksAndResidue(s: string, n: nat)
    requires n > 0
    ensures |Blocks(s, n)| * n + |Residue(s, n)| == |s|
    ensures |Residue(s, n)| < n
    ensures Residue(s, n) == s[|s| - |Residue(s, n)|..]
    decreases |s|
  {
    if |s| < n {
    } else {
      BlocksAndResidue(s[n..], n);
      assert (|Blocks(s[n..], n)| + 1) * n == |Blocks(s[n..], n)| * n + n;
    }
  }

  /** Block i is exactly the i-th slice of n bytes. */
  lemma {:induction false} BlockIsSlice(s: string, n: nat, i: nat)
    requires n > 0 && i < |Blocks(s, n)|
    ensures i * n + n <= |s| && Blocks(s, n)[i] == s[i * n..i * n + n]
    decreases i
  {
    if i == 0 {
    } else {
      var rest, k := s[n..], (i - 1) * n;
      BlockIsSlice(rest, n, i - 1);
      assert i * n == k + n;
      assert Blocks(s, n)[i] == Blocks(rest, n)[i - 1];
      assert rest[k..k + n] == s[k + n..k + n + n];
    }
  }

  /** Cutting loses nothing: the blocks and the residue make up the input. */
  lemma {:induction false} BlocksReassemble(s: string, n: nat)
    requires n > 0
    ensures Flatten(Blocks(s, n)) + Residue(s, n) == s
    decreases |s|
  {
    if |s| < n {
    } else {
      var head, rest := s[..n], s[n..];
      BlocksReassemble(rest, n);
      FlattenCons(head, Blocks(rest, n));
      AppendTwice(head, Flatten(Blocks(rest, n)), Residue(rest, n));
      assert head + rest == s;
    }
  }

  /** Cutting can stop after any prefix and resume from its residue. */
  lemma {:induction false} BlocksAppend(s: string, t: string, n: nat)
    requires n > 0
    ensures Blocks(s + t, n) == Blocks(s, n) + Blocks(Residue(s, n) + t, n)
    ensures Residue(s + t, n) == Residue(Residue(s, n) + t, n)
    decreases |s|
  {
    if |s| < n {
    } else {
      BlocksAppend(s[n..], t, n);
      assert (s + t)[..n] == s[..n];
      assert (s + t)[n..] == s[n..] + t;
    }
  }

  /** Messages that all have n bytes are recovered one by one. */
  lemma {:induction false} BlocksOfMessages(msgs: seq<string>, n: nat)
    requires n > 0
    requires forall m <- msgs :: |m| == n
    ensures Blocks(Flatten(msgs), n) == msgs && Residue(Flatten(msgs), n) == ""
  {
    if msgs == [] {
    } else {
      var init, last := msgs[..|msgs| - 1], msgs[|msgs| - 1];
      BlocksOfMessages(init, n);
      BlocksAppend(Flatten(init), last, n);
      assert "" + last == last;
      assert last[..n] == last && last[n..] == "";
      assert Blocks(last, n) == [last] + Blocks("", n);
      assert msgs == init + [last];
    }
  }

  /** A message boundary never depends on how the stream was chunked. */
  lemma {:induction false} ChunkIndependent(n: nat, chunks: seq<string>)
    requires n > 0
    ensures ReframeAll(Frame("", []), n, chunks) == Frame(Residue(Flatten(chunks), n), Blocks(Flatten(chunks), n))
  {
    if chunks == [] {
    } else {
      var init, last := chunks[..|chunks| - 1], chunks[|chunks| - 1];
      ChunkIndependent(n, init);
      BlocksAppend(Flatten(init), last, n);
    }
  }

  /** The callback of the stream client with its static string. */
  class Reframer {
    const testStrSize: nat
    var recvedStr: string
    var handled: seq<string>  // the arguments of handle_one_msg, in order

    ghost predicate Valid() reads this { testStrSize > 0 && |recvedStr| < testStrSize }

    ghost function Abs(): Frame reads this { Frame(recvedStr, handled) }

    constructor (testStrSize: nat)
      requires testStrSize > 0
      ensures Valid() && this.testStrSize == testStrSize && Abs() == Frame("", [])
    {
      this.testStrSize, this.recvedStr, this.handled := testStrSize, "", [];
    }

    method RecvFunc(str: string)
      requires Valid()
      modifies this
      ensures Valid() && Abs() == Reframe(old(Abs()), testStrSize, str)
    {
      recvedStr := recvedStr + str;
      ghost var all := recvedStr;
      while |recvedStr| >= testStrSize
        invariant handled + Blocks(recvedStr, testStrSize) == old(handled) + Blocks(all, testStrSize)
        invariant Residue(recvedStr, testStrSize) == Residue(all, testStrSize)
        decreases |recvedStr|
      {
        var msg := recvedStr[..testStrSize];
        recvedStr := recvedStr[testStrSize..];
        handled := handled + [msg];
      }
    }
  }
}
