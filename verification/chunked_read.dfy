/** Reading a file in fixed-size blocks until an empty read, as both the
    SHA-1 computation (`_get_sha1`) and the download iterator (`download`) do,
    and the incremental SHA-1 context those blocks are fed into. */
module ChunkedRead {

  newtype byte = b: int | 0 <= b < 256

  /** `2**10 * 8`: the block size of both reading loops. */
  const BlockSize: nat := 8192

  /** An open file: its name, its whole content and the read position. */
  datatype Stream = Stream(name: string, content: seq<byte>, pos: nat)

  /** The bytes a read from the current position on can still return. */
  function Remaining(s: Stream): seq<byte> {
    if s.pos <= |s.content| then s.content[s.pos..] else []
  }

  function Min(a: int, b: int): int {
    if a <= b then a else b
  }

  /** `file.read(n)`: up to n bytes from the position, "" once the end is reached. */
  function Read(s: Stream, n: nat): (r: (seq<byte>, Stream))
    ensures |r.0| <= n
    ensures r.0 == [] <==> n == 0 || Remaining(s) == []
    ensures Remaining(s) == r.0 + Remaining(r.1)
    ensures |r.0| < n ==> Remaining(r.1) == []
    ensures r.1.name == s.name && r.1.content == s.content
  {
    if s.pos >= |s.content| then ([], s)
    else
      var end := Min(s.pos + n, |s.content|);
      (s.content[s.pos..end], s.(pos := end))
  }

  /** `file.seek(pos)`. */
  function Seek(s: Stream, pos: nat): Stream {
    s.(pos := pos)
  }

  /** Concatenation of a sequence of blocks. */
  function Flatten(blocks: seq<seq<byte>>): seq<byte> {
    if blocks == [] then [] else blocks[0] + Flatten(blocks[1..])
  }

  lemma {:induction false} FlattenAppend(a: seq<seq<byte>>, b: seq<seq<byte>>)
    ensures Flatten(a + b) == Flatten(a) + Flatten(b)
    decreases |a|
  {
    if a == [] {
      assert a + b == b;
    } else {
      assert (a + b)[0] == a[0];
      assert (a + b)[1..] == a[1..] + b;
      FlattenAppend(a[1..], b);
    }
  }

  /** Measure that every non-empty read strictly lowers. */
  function Unread(s: Stream): nat {
    if s.pos < |s.content| then |s.content| - s.pos else 0
  }

  /** The blocks `iter(partial(file.read, n), '')` yields: reads of n bytes
      until the first empty one, which is not yielded. */
  function Blocks(s: Stream, n: nat): (bs: seq<seq<byte>>)
    requires n > 0
    ensures Flatten(bs) == Remaining(s)
    ensures forall i :: 0 <= i < |bs| ==> 0 < |bs[i]| <= n
    ensures forall i :: 0 <= i < |bs| - 1 ==> |bs[i]| == n
    decreases Unread(s)
  {
    var (block, next) := Read(s, n);
    if block == [] then [] else [block] + Blocks(next, n)
  }

  lemma ConcatAssoc<T>(a: seq<T>, b: seq<T>, c: seq<T>)
    ensures a + (b + c) == (a + b) + c
  {
  }

  /** One step of Blocks: an empty read ends it, any other read is its head. */
  lemma BlocksUnfold(s: Stream, n: nat)
    requires n > 0
    ensures Read(s, n).0 == [] ==> Blocks(s, n) == [] && Remaining(s) == []
    ensures Read(s, n).0 != [] ==> Blocks(s, n) == [Read(s, n).0] + Blocks(Read(s, n).1, n)
    ensures Read(s, n).0 != [] ==> Unread(Read(s, n).1) < Unread(s)
  {
  }

  /** The read loop written as the loop it is: read, stop on "", else keep
      the block. It yields exactly Blocks and leaves the stream at its end. */
  method ReadUntilEmpty(s: Stream, n: nat) returns (blocks: seq<seq<byte>>, rest: Stream)
    requires n > 0
    ensures blocks == Blocks(s, n)
    ensures Flatten(blocks) == Remaining(s)
    ensures Remaining(rest) == [] && rest.content == s.content && rest.name == s.name
  {
    blocks := [];
    rest := s;
    var r := Read(rest, n);
    while r.0 != []
      invariant r == Read(rest, n)
      invariant blocks + Blocks(rest, n) == Blocks(s, n)
      invariant rest.content == s.content && rest.name == s.name
      decreases Unread(rest)
    {
      BlocksUnfold(rest, n);
      ConcatAssoc(blocks, [r.0], Blocks(r.1, n));
      blocks := blocks + [r.0];
      rest := r.1;
      r := Read(rest, n);
    }
    BlocksUnfold(rest, n);
    assert blocks + Blocks(rest, n) == blocks;
  }

  /** An incremental SHA-1 context. SHA-1 itself (FIPS 180-4) is a parameter of
      the digest; the context records the bytes fed to it so far. */
  datatype Sha1Ctx = Sha1Ctx(fed: seq<byte>)

  /** `sha1.update(block)`. */
  function Update(ctx: Sha1Ctx, block: seq<byte>): Sha1Ctx {
    Sha1Ctx(ctx.fed + block)
  }

  /** `sha1.hexdigest()`, for a given SHA-1 function. */
  function HexDigest(ctx: Sha1Ctx, sha1: seq<byte> -> string): string {
    sha1(ctx.fed)
  }

  /** What `hexdigest()` of SHA-1 returns: 40 lower-case hexadecimal digits. */
  ghost predicate IsHexDigest(d: string) {
    |d| == 40 && forall k :: 0 <= k < |d| ==> d[k] in "0123456789abcdef"
  }

  /** Feeding every block in turn. */
  function FeedAll(ctx: Sha1Ctx, blocks: seq<seq<byte>>): (r: Sha1Ctx)
    ensures r.fed == ctx.fed + Flatten(blocks)
    decreases |blocks|
  {
    if blocks == [] then ctx else FeedAll(Update(ctx, blocks[0]), blocks[1..])
  }

  /** `_get_sha1`: the digest of everything from the position on, with the
      stream rewound to its start afterwards. */
  function GetSha1(s: Stream, sha1: seq<byte> -> string): (r: (string, Stream))
    ensures r.0 == sha1(Remaining(s))
    ensures r.1.pos == 0 && r.1.content == s.content && r.1.name == s.name
    ensures Remaining(r.1) == s.content
  {
    var ctx := FeedAll(Sha1Ctx([]), Blocks(s, BlockSize));
    assert ctx.fed == [] + Remaining(s) == Remaining(s);
    (HexDigest(ctx, sha1), Seek(s, 0))
  }

  /** The bytes hashed do not depend on the block size used to read them. */
  lemma HashInputIndependentOfBlockSize(s: Stream, n: nat, m: nat)
    requires n > 0 && m > 0
    ensures FeedAll(Sha1Ctx([]), Blocks(s, n)) == FeedAll(Sha1Ctx([]), Blocks(s, m))
  {
  }
}
