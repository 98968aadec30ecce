/** Byte strings and the few sequence facts the rest of the project shares. */
module Bytes {

  newtype byte = x: int | 0 <= x < 256
  type bytes = seq<byte>

  const NEWLINE: byte := 10

  function Min(a: int, b: int): int {
    if a <= b then a else b
  }

  lemma Joined<T>(a: seq<T>, b: seq<T>, c: seq<T>)
    ensures a + (b + c) == a + b + c
  {}

  /** A prefix of a stretch prolongs the prefix before it. */
  lemma PrefixGrows<T>(whole: seq<T>, at: nat, end: nat, n: nat)
    requires at <= end <= |whole| && n <= end - at
    ensures whole[..at] + whole[at..end][..n] == whole[..at + n]
  {}

  /** What a prefix of the whole holds before and behind an index. */
  lemma PrefixCut<T>(whole: seq<T>, max: nat, i: nat)
    requires i <= max <= |whole|
    ensures whole[..max][..i] == whole[..i] && whole[..max][i..] == whole[i..max]
  {}

  /** `n` times `each`. */
  function Times(n: nat, each: nat): nat {
    if n == 0 then 0 else each + Times(n - 1, each)
  }

  /** The concatenation of a sequence of sequences. */
  function Flatten<T>(parts: seq<seq<T>>): seq<T> {
    if parts == [] then [] else parts[0] + Flatten(parts[1..])
  }

  lemma {:induction false} FlattenConcat<T>(a: seq<seq<T>>, b: seq<seq<T>>)
    ensures Flatten(a + b) == Flatten(a) + Flatten(b)
  {
    if a == [] {
      assert a + b == b;
    } else {
      assert (a + b)[0] == a[0] && (a + b)[1..] == a[1..] + b;
      FlattenConcat(a[1..], b);
    }
  }

  lemma FlattenSnoc<T>(a: seq<seq<T>>, last: seq<T>)
    ensures Flatten(a + [last]) == Flatten(a) + last
  {
    FlattenConcat(a, [last]);
    assert Flatten([last]) == last + Flatten<T>([]);
  }

  /** The first `n` bytes of a file; a gap past its end reads as zeros. */
  function Upto(content: bytes, n: nat): (r: bytes)
    ensures |r| == n
  {
    if n > |content| then content + seq(n - |content|, _ => 0) else content[..n]
  }

  function From(content: bytes, n: nat): bytes {
    if n >= |content| then [] else content[n..]
  }

  /** What write(2) leaves in a file: `chunk` laid over `content` at `pos`. */
  function Overwrite(content: bytes, pos: nat, chunk: bytes): (r: bytes)
    ensures chunk == [] ==> r == content
  {
    if chunk == [] then content else Upto(content, pos) + chunk + From(content, pos + |chunk|)
  }

  /** Two adjacent writes leave what one write of the joined bytes leaves. */
  lemma OverwriteTwice(content: bytes, pos: nat, a: bytes, b: bytes)
    ensures Overwrite(Overwrite(content, pos, a), pos + |a|, b) == Overwrite(content, pos, a + b)
  {
    if a == [] {
      assert a + b == b;
    } else if b == [] {
      assert a + b == a;
    } else {
      var before, behind := Upto(content, pos), From(content, pos + |a|);
      JoinedUpto(before + a, behind);
      JoinedFrom(before + a, behind, |b|);
      FromFrom(content, pos + |a|, |b|);
      Joined(before, a, b);
    }
  }

  lemma JoinedUpto(before: bytes, behind: bytes)
    ensures Upto(before + behind, |before|) == before
  {}

  lemma JoinedFrom(before: bytes, behind: bytes, n: nat)
    ensures From(before + behind, |before| + n) == From(behind, n)
  {}

  lemma FromFrom(content: bytes, n: nat, m: nat)
    ensures From(From(content, n), m) == From(content, n + m)
  {}
}
