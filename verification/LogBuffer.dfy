/**
 The crash log's ring buffer (enigma2/main/bsod.cpp), refined to the plain
 sequence of everything ever written.
 */
module LogBuffer {
  import opened Bytes

  /** The last `n` bytes, or all of them. */
  function Last(s: seq<Byte>, n: nat): (r: seq<Byte>)
    ensures |r| == if |s| <= n then |s| else n
  {
    if |s| <= n then s else s[|s| - n..]
  }

  function DropZeros(s: seq<Byte>): seq<Byte> {
    if s != [] && s[0] == 0 then DropZeros(s[1..]) else s
  }

  /** A ring read from the head on, wrapped around: oldest byte first. */
  function Unroll(s: seq<Byte>, head: nat): seq<Byte>
    requires head <= |s|
  {
    s[head..] + s[..head]
  }

  /** The last bytes written, behind zeros where nothing was written yet. */
  function Window(written: seq<Byte>, n: nat): seq<Byte> {
    Zeros(n - |Last(written, n)|) + Last(written, n)
  }

  class Ring {
    const ring: array<Byte>
    var head: nat
    ghost var written: seq<Byte>

    ghost predicate Valid()
      reads this, ring
    {
      && 0 < ring.Length && head < ring.Length
      && (|written| < ring.Length ==> head == |written|)
      && Unroll(ring[..], head) == Window(written, ring.Length)
    }

    constructor (n: nat)
      requires n > 0
      ensures Valid() && ring.Length == n && written == []
    {
      ring := new Byte[n](_ => 0);
      head, written := 0, [];
      new;
      assert ring[..] == Zeros(n);
    }

    /** `addToLogbuffer`: copies in stretches up to the end of the ring. */
    method Add(data: seq<Byte>)
      requires Valid()
      modifies this, ring
      ensures Valid() && written == old(written) + data
    {
      hide Unroll, Window;
      var rest := data;
      while rest != []
        invariant Valid()
        invariant written + rest == old(written) + data
        decreases |rest|
      {
        var remaining := ring.Length - head;
        if remaining > |rest| {
          remaining := |rest|;
        }
        Regroup(written, rest, remaining);
        CopyIn(rest[..remaining]);
        rest := rest[remaining..];
      }
    }

    method CopyIn(chunk: seq<Byte>)
      requires Valid() && 0 < |chunk| <= ring.Length - head
      modifies this, ring
      ensures Valid() && written == old(written) + chunk
    {
      hide Last, Window, Unroll;
      ghost var was, start := ring[..], head;
      Overwrite(chunk);
      head := head + |chunk|;
      if head == ring.Length {
        head := 0;
      }
      WindowMoves(was, start, chunk, written);
      written := written + chunk;
    }

    method Overwrite(chunk: seq<Byte>)
      requires head + |chunk| <= ring.Length
      modifies ring
      ensures ring[..] == old(ring[..head]) + chunk + old(ring[head + |chunk|..])
    {
      forall i | 0 <= i < |chunk| {
        ring[head + i] := chunk[i];
      }
    }

    /** The scan of `getLogBuffer` for the first byte that is not zero. */
    method Get() returns (s: seq<Byte>)
      requires Valid()
      ensures s == DropZeros(Last(written, ring.Length))
    {
      hide DropZeros, Last, Zeros;
      var begin := head;
      ghost var k, u := 0, Unroll(ring[..], head);
      ZerosDropped(ring.Length - |Last(written, ring.Length)|, Last(written, ring.Length));
      assert u[0..] == u;
      while ring[begin] == 0
        invariant 0 <= k < ring.Length && begin == (if head + k < ring.Length then head + k else head + k - ring.Length)
        invariant DropZeros(u[k..]) == DropZeros(u)
        decreases ring.Length - k
      {
        assert u[k] == ring[begin];
        DropNext(u, k);
        k := k + 1;
        begin := begin + 1;
        if begin == ring.Length {
          begin := 0;
        }
        if begin == head {
          DropNext(u, k);
          return [];
        }
      }
      assert u[k] == ring[begin];
      DropNext(u, k);
      if begin < head {
        assert ring[begin..head] == u[k..];
        return ring[begin..head];
      } else {
        assert ring[begin..] + ring[..head] == u[k..];
        return ring[begin..] + ring[..head];
      }
    }
  }

  lemma DropNext(u: seq<Byte>, k: nat)
    requires k <= |u|
    ensures k == |u| ==> DropZeros(u[k..]) == []
    ensures k < |u| && u[k] == 0 ==> DropZeros(u[k..]) == DropZeros(u[k + 1..])
    ensures k < |u| && u[k] != 0 ==> DropZeros(u[k..]) == u[k..]
  {
  }

  lemma {:induction false} ZerosDropped(n: nat, s: seq<Byte>)
    ensures DropZeros(Zeros(n) + s) == DropZeros(s)
  {
    if n == 0 {
      assert Zeros(0) + s == s;
    } else {
      ZerosDropped(n - 1, s);
      assert (Zeros(n) + s)[1..] == Zeros(n - 1) + s;
    }
  }

  /** Overwriting from the head and moving the head drops the oldest bytes and appends the new ones. */
  lemma Rotated(was: seq<Byte>, start: nat, chunk: seq<Byte>)
    requires start + |chunk| <= |was|
    ensures var now, next := was[..start] + chunk + was[start + |chunk|..], start + |chunk|;
            Unroll(now, if next == |was| then 0 else next) == Unroll(was, start)[|chunk|..] + chunk
  {
  }

  lemma Regroup(written: seq<Byte>, rest: seq<Byte>, k: nat)
    requires k <= |rest|
    ensures written + rest[..k] + rest[k..] == written + rest
  {
  }

  lemma WindowMoves(was: seq<Byte>, start: nat, chunk: seq<Byte>, written: seq<Byte>)
    requires start + |chunk| <= |was| && Unroll(was, start) == Window(written, |was|)
    ensures var now, next := was[..start] + chunk + was[start + |chunk|..], start + |chunk|;
            Unroll(now, if next == |was| then 0 else next) == Window(written + chunk, |was|)
  {
    hide Last, Zeros, Unroll;
    Rotated(was, start, chunk);
    LastOfMore(written, chunk, |was|);
  }

  /** Appending shifts the window over zeros and last bytes. */
  lemma LastOfMore(s: seq<Byte>, chunk: seq<Byte>, n: nat)
    requires |chunk| <= n
    ensures var l, m := Last(s, n), Last(s + chunk, n);
            (Zeros(n - |l|) + l)[|chunk|..] + chunk == Zeros(n - |m|) + m
  {
  }

  /** What the scan leaves out are leading zeros, all of them. */
  lemma {:induction false} OnlyZerosDropped(s: seq<Byte>)
    ensures var r := DropZeros(s);
            && |r| <= |s| && s == Zeros(|s| - |r|) + r && (r == [] || r[0] != 0)
  {
    if s != [] && s[0] == 0 {
      OnlyZerosDropped(s[1..]);
      var n := |s| - |DropZeros(s)|;
      assert Zeros(n) == [0] + Zeros(n - 1);
      assert s == [0] + s[1..];
    }
  }

  /** Without NUL bytes the scan loses nothing: exactly the last bytes come back. */
  lemma NulFree(s: seq<Byte>, n: nat)
    requires forall i :: 0 <= i < |s| ==> s[i] != 0
    ensures DropZeros(Last(s, n)) == Last(s, n)
  {
  }

  /** And that is also necessary at the front: a leading NUL is lost. */
  lemma LeadingNulLost(s: seq<Byte>, n: nat)
    ensures DropZeros(Last(s, n)) == Last(s, n) <==> Last(s, n) == [] || Last(s, n)[0] != 0
  {
    DropShortens(Last(s, n));
  }

  lemma {:induction false} DropShortens(s: seq<Byte>)
    ensures |DropZeros(s)| <= |s| && (s != [] && s[0] == 0 ==> |DropZeros(s)| < |s|)
  {
    if s != [] && s[0] == 0 {
      DropShortens(s[1..]);
    }
  }
}
