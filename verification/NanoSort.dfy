/**
 `dvbapi_sort_nanos` (oscam/oscam_8249/module-dvbapi.c): the tag-length-value
 blocks of a descriptor are sorted by tag, by one pass over the source per tag.
 */
module NanoSort {
  import opened Bytes

  /** Tag and length byte in front of the payload. */
  function BlockLength(lengthByte: int): int {
    lengthByte + 2
  }

  predicate IsBlock(b: seq<Byte>) {
    |b| >= 2 && |b| == BlockLength(b[1])
  }

  type Block = b: seq<Byte> | IsBlock(b)
    witness [0, 0]

  function Tag(b: Block): Byte {
    b[0]
  }

  /** Every block that a walk from `j` meets before `len` lies in readable memory. */
  predicate Readable(src: seq<Byte>, j: nat, len: nat)
    decreases len - j
  {
    j >= len || (j + 1 < |src| && j + BlockLength(src[j + 1]) <= |src| && Readable(src, j + BlockLength(src[j + 1]), len))
  }

  /** The blocks such a walk meets; the last one may reach beyond `len`. */
  function Blocks(src: seq<Byte>, j: nat, len: nat): (bs: seq<Block>)
    requires Readable(src, j, len)
    decreases len - j
  {
    if j >= len then [] else [src[j..j + BlockLength(src[j + 1])]] + Blocks(src, j + BlockLength(src[j + 1]), len)
  }

  function Flatten(bs: seq<Block>): seq<Byte> {
    if bs == [] then [] else bs[0] + Flatten(bs[1..])
  }

  function WithTag(bs: seq<Block>, tag: int): seq<Block>
  {
    if bs == [] then []
    else (if Tag(bs[0]) == tag then [bs[0]] else []) + WithTag(bs[1..], tag)
  }

  /** The blocks with tags up to `tag`, tag by tag, each tag in source order. */
  function UpTo(bs: seq<Block>, tag: int): seq<Block>
    decreases tag + 1
  {
    if tag < 0 then [] else UpTo(bs, tag - 1) + WithTag(bs, tag)
  }

  function Sorted(bs: seq<Block>): seq<Block>
  {
    UpTo(bs, 255)
  }

  // ------------------------------------------------ what the order amounts to

  lemma {:induction false} WithTagOnly(bs: seq<Block>, tag: int)
    ensures forall i :: 0 <= i < |WithTag(bs, tag)| ==> Tag(WithTag(bs, tag)[i]) == tag
  {
    if bs != [] {
      WithTagOnly(bs[1..], tag);
    }
  }

  lemma {:induction false} WithTagOfConcat(a: seq<Block>, b: seq<Block>, tag: int)
    ensures WithTag(a + b, tag) == WithTag(a, tag) + WithTag(b, tag)
  {
    if a == [] {
      assert a + b == b;
    } else {
      assert (a + b)[1..] == a[1..] + b;
      WithTagOfConcat(a[1..], b, tag);
    }
  }

  /** Selecting a tag from blocks that all have one tag. */
  lemma {:induction false} WithTagOfUniform(bs: seq<Block>, tag: int, other: int)
    requires forall i :: 0 <= i < |bs| ==> Tag(bs[i]) == tag
    ensures WithTag(bs, other) == if tag == other then bs else []
  {
    if bs != [] {
      WithTagOfUniform(bs[1..], tag, other);
    }
  }

  ghost predicate InOrder(bs: seq<Block>) {
    forall i, j :: 0 <= i < j < |bs| ==> Tag(bs[i]) <= Tag(bs[j])
  }

  ghost predicate AtMost(bs: seq<Block>, tag: int) {
    forall i :: 0 <= i < |bs| ==> Tag(bs[i]) <= tag
  }

  lemma JoinInOrder(a: seq<Block>, b: seq<Block>, tag: int)
    requires InOrder(a) && AtMost(a, tag - 1)
    requires forall i :: 0 <= i < |b| ==> Tag(b[i]) == tag
    ensures InOrder(a + b) && AtMost(a + b, tag)
  {
  }

  lemma {:induction false} UpToInOrder(bs: seq<Block>, tag: int)
    ensures InOrder(UpTo(bs, tag)) && AtMost(UpTo(bs, tag), tag)
    decreases tag + 1
  {
    if tag >= 0 {
      hide InOrder, AtMost, WithTag, Tag;
      UpToInOrder(bs, tag - 1);
      WithTagOnly(bs, tag);
      JoinInOrder(UpTo(bs, tag - 1), WithTag(bs, tag), tag);
    }
  }

  lemma {:induction false} UpToSelects(bs: seq<Block>, tag: int, t: int)
    ensures WithTag(UpTo(bs, tag), t) == if t <= tag then WithTag(bs, t) else []
    decreases tag + 1
  {
    if tag < 0 {
      if t <= tag {
        NoNegativeTags(bs, t);
      }
    } else {
      hide WithTag, Tag;
      UpToSelects(bs, tag - 1, t);
      WithTagOnly(bs, tag);
      WithTagOfConcat(UpTo(bs, tag - 1), WithTag(bs, tag), t);
      WithTagOfUniform(WithTag(bs, tag), tag, t);
    }
  }

  /** The sorted prefix is in tag order, and holds for each tag exactly the source's blocks in the source's order. */
  lemma UpToIsStableSort(bs: seq<Block>, tag: int)
    ensures InOrder(UpTo(bs, tag)) && AtMost(UpTo(bs, tag), tag)
    ensures forall t :: WithTag(UpTo(bs, tag), t) == if t <= tag then WithTag(bs, t) else []
  {
    hide InOrder, AtMost, WithTag, UpTo;
    UpToInOrder(bs, tag);
    forall t ensures WithTag(UpTo(bs, tag), t) == if t <= tag then WithTag(bs, t) else [] {
      UpToSelects(bs, tag, t);
    }
  }

  lemma {:induction false} NoNegativeTags(bs: seq<Block>, t: int)
    requires t < 0
    ensures WithTag(bs, t) == []
  {
    if bs != [] {
      NoNegativeTags(bs[1..], t);
    }
  }

  lemma {:induction false} CountWithTag(bs: seq<Block>, b: Block)
    ensures multiset(WithTag(bs, Tag(b)))[b] == multiset(bs)[b]
  {
    if bs != [] {
      CountWithTag(bs[1..], b);
      assert bs == [bs[0]] + bs[1..];
    }
  }

  /** Nothing is lost, added or changed: the sorted blocks are a permutation of the blocks. */
  lemma SortedIsPermutation(bs: seq<Block>)
    ensures multiset(Sorted(bs)) == multiset(bs)
  {
    hide UpTo;
    UpToIsStableSort(bs, 255);
    forall b: Block ensures multiset(Sorted(bs))[b] == multiset(bs)[b] {
      CountWithTag(bs, b);
      CountWithTag(Sorted(bs), b);
    }
  }

  /** The order is that of the first bytes; the second byte of a block tells the number of those behind it. */
  lemma SortedByFirstByte(bs: seq<Block>, i: nat, j: nat)
    requires i < j < |Sorted(bs)|
    ensures var a, b := Sorted(bs)[i], Sorted(bs)[j];
            && |a| >= 2 && |b| >= 2 && a[0] <= b[0]
            && |a[2..]| == a[1] && |b[2..]| == b[1]
  {
    hide UpTo, WithTag;
    UpToInOrder(bs, 255);
  }

  /** Written out, the blocks can be read back. */
  lemma {:induction false} BlocksOfFlatten(before: seq<Byte>, bs: seq<Block>)
    ensures var s := before + Flatten(bs);
            Readable(s, |before|, |s|) && Blocks(s, |before|, |s|) == bs
    decreases |bs|
  {
    hide Readable, Blocks, IsBlock;
    var s := before + Flatten(bs);
    if bs == [] {
      WalkEnds(s, |before|, |s|);
    } else {
      var next := before + bs[0];
      assert next + Flatten(bs[1..]) == s;
      BlocksOfFlatten(next, bs[1..]);
      BlockFirst(before, bs[0], Flatten(bs[1..]));
    }
  }

  lemma BlockFirst(before: seq<Byte>, b: Block, after: seq<Byte>)
    requires Readable(before + b + after, |before| + |b|, |before + b + after|)
    ensures var s := before + b + after;
            Readable(s, |before|, |s|) && Blocks(s, |before|, |s|) == [b] + Blocks(s, |before| + |b|, |s|)
  {
    hide Readable, Blocks;
    BlockStands(before, b, after);
    Unfolded(before + b + after, |before|, |before + b + after|, b);
  }

  lemma Unfolded(s: seq<Byte>, j: nat, len: nat, b: Block)
    requires j < len <= |s| && j + 1 < |s| && j + BlockLength(s[j + 1]) <= |s| && s[j..j + BlockLength(s[j + 1])] == b
    requires Readable(s, j + |b|, len)
    ensures Readable(s, j, len) && Blocks(s, j, len) == [b] + Blocks(s, j + |b|, len)
  {
  }

  lemma BlockStands(before: seq<Byte>, b: Block, after: seq<Byte>)
    ensures var s := before + b + after;
            && |before| + 1 < |s| && s[|before| + 1] == b[1]
            && |before| + BlockLength(s[|before| + 1]) <= |s|
            && s[|before|..|before| + BlockLength(s[|before| + 1])] == b
  {
  }

  /** Well-formed input: the blocks end exactly at `len`. */
  predicate WellFormed(src: seq<Byte>, len: nat)
    requires Readable(src, 0, len)
  {
    |Flatten(Blocks(src, 0, len))| == len
  }

  lemma {:induction false} FlattenOfConcat(a: seq<Block>, b: seq<Block>)
    ensures Flatten(a + b) == Flatten(a) + Flatten(b)
  {
    if a == [] {
      assert a + b == b;
    } else {
      assert (a + b)[1..] == a[1..] + b;
      FlattenOfConcat(a[1..], b);
    }
  }

  function Bulk(bs: seq<Block>): nat {
    if bs == [] then 0 else |bs[0]| + Bulk(bs[1..])
  }

  function BulkUpTo(bs: seq<Block>, tag: int): nat {
    if bs == [] then 0 else (if Tag(bs[0]) <= tag then |bs[0]| else 0) + BulkUpTo(bs[1..], tag)
  }

  lemma {:induction false} BulkIsLength(bs: seq<Block>)
    ensures Bulk(bs) == |Flatten(bs)|
  {
    if bs != [] {
      BulkIsLength(bs[1..]);
    }
  }

  lemma {:induction false} BulkByTag(bs: seq<Block>, tag: int)
    ensures BulkUpTo(bs, tag) == BulkUpTo(bs, tag - 1) + Bulk(WithTag(bs, tag))
    ensures tag < 0 ==> BulkUpTo(bs, tag) == 0
    ensures tag >= 255 ==> BulkUpTo(bs, tag) == Bulk(bs)
  {
    if bs != [] {
      BulkByTag(bs[1..], tag);
      if Tag(bs[0]) == tag {
        assert WithTag(bs, tag)[1..] == WithTag(bs[1..], tag);
      } else {
        assert WithTag(bs, tag) == WithTag(bs[1..], tag);
      }
    }
  }

  lemma {:induction false} LengthUpTo(bs: seq<Block>, tag: int)
    ensures |Flatten(UpTo(bs, tag))| == BulkUpTo(bs, tag)
    decreases tag + 1
  {
    BulkByTag(bs, tag);
    if tag >= 0 {
      LengthUpTo(bs, tag - 1);
      FlattenOfConcat(UpTo(bs, tag - 1), WithTag(bs, tag));
      BulkIsLength(WithTag(bs, tag));
    }
  }

  lemma {:induction false} BulkGrows(bs: seq<Block>, tag: int)
    ensures BulkUpTo(bs, tag) <= Bulk(bs)
  {
    if bs != [] {
      BulkGrows(bs[1..], tag);
    }
  }

  /** The walk covers `len`. */
  lemma {:induction false} BlocksCover(src: seq<Byte>, j: nat, len: nat)
    requires Readable(src, j, len)
    ensures |Flatten(Blocks(src, j, len))| >= len - j
    decreases len - j
  {
    if j < len {
      BlocksCover(src, j + BlockLength(src[j + 1]), len);
    }
  }

  /** Tags that do not occur add nothing. */
  lemma {:induction false} SkipTags(bs: seq<Block>, low: int, high: int)
    requires low <= high && -1 <= low
    requires forall b :: b in bs ==> !(low < Tag(b) <= high)
    ensures UpTo(bs, high) == UpTo(bs, low)
    decreases high - low
  {
    if low < high {
      SkipTags(bs, low, high - 1);
      NoSuchTag(bs, high);
    }
  }

  lemma {:induction false} NoSuchTag(bs: seq<Block>, tag: int)
    requires forall b :: b in bs ==> Tag(b) != tag
    ensures WithTag(bs, tag) == []
  {
    if bs != [] {
      NoSuchTag(bs[1..], tag);
    }
  }

  /** What has been copied once the blocks `done` of the pass for `tag` are through. */
  function Copied(bs: seq<Block>, done: seq<Block>, tag: int): seq<Byte> {
    Flatten(UpTo(bs, tag - 1) + WithTag(done, tag))
  }

  lemma CopiedNext(bs: seq<Block>, done: seq<Block>, b: Block, tag: int)
    ensures Copied(bs, done + [b], tag) == Copied(bs, done, tag) + if Tag(b) == tag then b else []
    ensures WithTag(done + [b], tag) == WithTag(done, tag) + if Tag(b) == tag then [b] else []
  {
    WithTagOfConcat(done, [b], tag);
    assert WithTag([b], tag) == (if Tag(b) == tag then [b] else []) + WithTag([b][1..], tag);
    var u := UpTo(bs, tag - 1) + WithTag(done, tag);
    if Tag(b) == tag {
      assert UpTo(bs, tag - 1) + WithTag(done + [b], tag) == u + [b];
      FlattenOfConcat(u, [b]);
      assert Flatten([b]) == b + Flatten([b][1..]);
    } else {
      assert WithTag(done + [b], tag) == WithTag(done, tag);
      assert Copied(bs, done, tag) + [] == Copied(bs, done, tag);
    }
  }

  /** A pass never copies more than there is. */
  lemma CopiedFits(bs: seq<Block>, done: seq<Block>, rest: seq<Block>, tag: int)
    requires bs == done + rest && 0 <= tag
    ensures |Copied(bs, done, tag)| <= |Flatten(bs)|
  {
    WithTagOfConcat(done, rest, tag);
    var u := UpTo(bs, tag - 1) + WithTag(done, tag);
    assert UpTo(bs, tag) == u + WithTag(rest, tag);
    FlattenOfConcat(u, WithTag(rest, tag));
    LengthUpTo(bs, tag);
    BulkGrows(bs, tag);
    BulkIsLength(bs);
  }

  /** `memcpy(&dest[w], &src[j], l)`. */
  method CopyBlock(dest: array<Byte>, w: nat, b: seq<Byte>)
    requires w + |b| <= dest.Length
    modifies dest
    ensures dest[..w + |b|] == old(dest[..w]) + b
    ensures dest[w + |b|..] == old(dest[w + |b|..])
  {
    forall i | 0 <= i < |b| {
      dest[w + i] := b[i];
    }
  }

  /** The walk, one block at a time. */
  lemma NextBlock(src: seq<Byte>, j: nat, len: nat) returns (b: Block)
    requires j < len && Readable(src, j, len)
    ensures j + 1 < |src| && j + BlockLength(src[j + 1]) <= |src|
    ensures b == src[j..j + BlockLength(src[j + 1])] && Tag(b) == src[j]
    ensures Readable(src, j + BlockLength(src[j + 1]), len)
    ensures Blocks(src, j, len) == [b] + Blocks(src, j + BlockLength(src[j + 1]), len)
  {
    b := Blocks(src, j, len)[0];
  }

  lemma Regroup(bs: seq<Block>, done: seq<Block>, b: Block, rest: seq<Block>)
    requires bs == done + ([b] + rest)
    ensures bs == (done + [b]) + rest
  {
  }

  lemma WalkEnds(src: seq<Byte>, j: nat, len: nat)
    requires j >= len
    ensures Readable(src, j, len) && Blocks(src, j, len) == []
  {
  }

  /** One pass: copies the blocks tagged `c`, and finds the next tag; false if they do not fit. */
  method Pass(dest: array<Byte>, src: seq<Byte>, len: nat, w0: nat, c: int) returns (ok: bool, w: nat, n: int)
    requires len <= dest.Length && Readable(src, 0, len) && w0 <= len && -1 <= c < 256
    requires var bs := Blocks(src, 0, len); dest[..w0] == Copied(bs, [], c)
    modifies dest
    ensures dest[len..] == old(dest[len..])
    ensures !ok ==> !WellFormed(src, len)
    ensures ok ==> w <= len && c < n <= 256
                   && var bs := Blocks(src, 0, len);
                   && dest[..w] == Copied(bs, bs, c)
                   && (n < 256 ==> exists b :: b in bs && Tag(b) == n)
                   && (forall b :: b in bs && Tag(b) > c ==> n <= Tag(b))
  {
    hide Copied, Flatten, IsBlock, Blocks, Readable, Tag;
    ghost var bs := Blocks(src, 0, len);
    ghost var done: seq<Block> := [];
    n, w := 256, w0;
    var j: nat := 0;
    while j < len
      invariant Readable(src, j, len) && bs == done + Blocks(src, j, len)
      invariant w <= len && dest[..w] == Copied(bs, done, c)
      invariant dest[len..] == old(dest[len..])
      invariant c < n <= 256
      invariant n < 256 ==> exists b :: b in done && Tag(b) == n
      invariant forall b :: b in done && Tag(b) > c ==> n <= Tag(b)
      decreases len - j
    {
      ghost var b := NextBlock(src, j, len);
      var l := BlockLength(src[j + 1]);
      Regroup(bs, done, b, Blocks(src, j + l, len));
      CopiedNext(bs, done, b, c);
      if src[j] == c {
        if w + l > len {
          CopiedFits(bs, done + [b], Blocks(src, j + l, len), c);
          return false, w, n;
        }
        CopyBlock(dest, w, src[j..j + l]);
        w := w + l;
      } else if src[j] > c && src[j] < n {
        n := src[j];
      }
      done := done + [b];
      j := j + l;
    }
    ok := true;
    WalkEnds(src, j, len);
    assert done == bs;
  }

  /**
   `dvbapi_sort_nanos`.  Blocks that end exactly at `len` come out sorted by
   tag, stably; anything else ends in the sanity check, with a zeroed result.
   So on well-formed input the sanity check is unreachable.
   */
  method SortNanos(dest: array<Byte>, src: seq<Byte>, len: nat)
    requires len <= dest.Length && Readable(src, 0, len)
    modifies dest
    ensures dest[len..] == old(dest[len..])
    ensures dest[..len] == if WellFormed(src, len) then Flatten(Sorted(Blocks(src, 0, len))) else Zeros(len)
  {
    hide Flatten, IsBlock, Blocks, Readable;
    ghost var bs := Blocks(src, 0, len);
    var w: nat, c := 0, -1;
    NothingCopied(bs);
    while true
      invariant -1 <= c < 256 && w <= len
      invariant dest[..w] == Copied(bs, [], c)
      invariant dest[len..] == old(dest[len..])
      decreases 256 - c
    {
      var ok, w', n := Pass(dest, src, len, w, c);
      if !ok {
        forall i | 0 <= i < len {
          dest[i] := 0;
        }
        return;
      }
      w := w';
      PassDone(bs, c, n);
      if n == 256 {
        break;
      }
      c := n;
    }
    SortedLength(src, len);
  }

  lemma NothingCopied(bs: seq<Block>)
    ensures Copied(bs, [], -1) == []
  {
  }

  /** After a full pass the next tag is the next one that occurs, and then all is sorted up to it. */
  lemma PassDone(bs: seq<Block>, c: int, n: int)
    requires -1 <= c < n <= 256 && forall b :: b in bs && Tag(b) > c ==> n <= Tag(b)
    ensures Copied(bs, bs, c) == Copied(bs, [], n)
    ensures n == 256 ==> Copied(bs, bs, c) == Flatten(Sorted(bs))
  {
    if c == -1 {
      NoSuchTag(bs, -1);
    }
    assert UpTo(bs, c) == UpTo(bs, c - 1) + WithTag(bs, c);
    SkipTags(bs, c, n - 1);
    assert UpTo(bs, n - 1) + [] == UpTo(bs, n - 1);
  }

  lemma SortedLength(src: seq<Byte>, len: nat)
    requires Readable(src, 0, len)
    ensures var bs := Blocks(src, 0, len);
            |Flatten(Sorted(bs))| == |Flatten(bs)| >= len
  {
    var bs := Blocks(src, 0, len);
    BlocksCover(src, 0, len);
    LengthUpTo(bs, 255);
    BulkByTag(bs, 255);
    BulkIsLength(bs);
  }

  /**
   The result in the reader's terms: parsed again, the sorted bytes give the
   same blocks in the order of their tags, and for every tag in source order.
   */
  lemma ResultParses(src: seq<Byte>, len: nat)
    requires Readable(src, 0, len)
    ensures var bs := Blocks(src, 0, len);
            var out := Flatten(Sorted(bs));
            && Readable(out, 0, |out|) && Blocks(out, 0, |out|) == Sorted(bs)
            && multiset(Sorted(bs)) == multiset(bs)
            && InOrder(Sorted(bs))
            && (forall t :: 0 <= t < 256 ==> WithTag(Sorted(bs), t) == WithTag(bs, t))
  {
    var bs := Blocks(src, 0, len);
    BlocksOfFlatten([], Sorted(bs));
    assert [] + Flatten(Sorted(bs)) == Flatten(Sorted(bs));
    SortedIsPermutation(bs);
    UpToIsStableSort(bs, 255);
  }
}
