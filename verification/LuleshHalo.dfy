/**
  The LULESH halo sum: `CommSend` packs the sides of every rank's box, `CommSBN` adds what arrives to the rank's own
  sides. Afterwards every copy of a shared mesh node holds the sum over all ranks that share it.
 */
module LuleshHalo {
  import opened Division
  import opened LuleshGrid
  import opened LuleshMessages

  // ----- the fields of a rank -----

  function BoxSize(b: Box): int { Volume(b.dz, b.dy, b.dx) }

  /** The value of each field at every node of the box. */
  ghost function Contents(fields: array2<real>): (v: seq<seq<real>>)
    reads fields
    ensures |v| == fields.Length0 && forall fi :: 0 <= fi < |v| ==> |v[fi]| == fields.Length1
    ensures forall fi, i :: 0 <= fi < |v| && 0 <= i < fields.Length1 ==> v[fi][i] == fields[fi, i]
  {
    seq(fields.Length0, fi requires 0 <= fi < fields.Length0 reads fields =>
      seq(fields.Length1, i requires 0 <= i < fields.Length1 reads fields => fields[fi, i]))
  }

  method Store(fields: array2<real>, fi: nat, i: nat, value: real)
    requires fi < fields.Length0 && i < fields.Length1
    modifies fields
    ensures Contents(fields) == old(Contents(fields))[fi := old(Contents(fields))[fi][i := value]]
  {
    ghost var before := Contents(fields);
    fields[fi, i] := value;
    assert Contents(fields)[fi] == before[fi][i := value];
    assert forall gi :: 0 <= gi < |before| && gi != fi ==> Contents(fields)[gi] == before[gi];
  }

  /** Every field has the values of the box first; ghost values may follow them. */
  ghost predicate Sized(x: Exchange, v: seq<seq<real>>) {
    |v| == x.fields && forall fi :: 0 <= fi < |v| ==> |v[fi]| >= BoxSize(x.box)
  }

  // ----- the place of a value in a message -----

  /** The fields of a message follow one another; each lists the nodes of the side. */
  function Entry(x: Exchange, k: nat, fi: int, n: Node): int
    requires k < BLOCKS
  {
    fi * Count(x.box, DirAt(k)) + Pos(x.box, DirAt(k), n)
  }

  predicate AtSide(x: Exchange, k: nat, n: Node)
    requires k < BLOCKS
  {
    OnSide(x.box, DirAt(k), n)
  }

  lemma EntryInRange(x: Exchange, k: nat, fi: nat, n: Node)
    requires k < BLOCKS && fi < x.fields && AtSide(x, k, n)
    ensures 0 <= Entry(x, k, fi, n) < MessageCount(x, k)
  {
    hide Pos, Count, DirAt, OnSide;
    var d, c := DirAt(k), Count(x.box, DirAt(k));
    PosInRange(x.box, d, n);
    Monotone(0, fi, c);
    Monotone(fi + 1, x.fields, c);
    OneMore(fi, c);
  }

  /** No two values share a place in a message. */
  lemma EntryIsInjective(x: Exchange, k: nat, fi: nat, n: Node, gi: nat, m: Node)
    requires k < BLOCKS && AtSide(x, k, n) && AtSide(x, k, m)
    requires Entry(x, k, fi, n) == Entry(x, k, gi, m)
    ensures fi == gi && n == m
  {
    hide Pos, Count, DirAt, OnSide;
    var d, c := DirAt(k), Count(x.box, DirAt(k));
    PosInRange(x.box, d, n);
    PosInRange(x.box, d, m);
    DivisionIsUnique(c, fi, Pos(x.box, d, n), gi, Pos(x.box, d, m));
    PosIsInjective(x.box, d, n, m);
  }

  lemma IndexFits(x: Exchange, k: nat, n: Node)
    requires k < BLOCKS && Proper(x.box) && AtSide(x, k, n)
    ensures Inside(x.box, n) && 0 <= Index(x.box, n) < BoxSize(x.box)
  {
    hide DirAt, Index;
    SideIsInside(x.box, DirAt(k), n);
    IndexInRange(x.box, n);
  }

  // ----- packing -----

  /** The values of the fields before `fi`, and of field `fi` before node `upTo`, are in their places. */
  ghost predicate PackedUpTo(x: Exchange, k: nat, v: seq<seq<real>>, at: nat, buffer: seq<real>, fi: int, upTo: Node)
    requires k < BLOCKS && Proper(x.box) && Sized(x, v)
  {
    at + MessageCount(x, k) <= |buffer| &&
    forall gi, n :: 0 <= gi < x.fields && AtSide(x, k, n) && (gi < fi || (gi == fi && Before(n, upTo))) ==>
      0 <= Entry(x, k, gi, n) < MessageCount(x, k) && Inside(x.box, n) && 0 <= Index(x.box, n) < BoxSize(x.box) &&
      buffer[at + Entry(x, k, gi, n)] == v[gi][Index(x.box, n)]
  }

  /** The message of block `k` is in the buffer. */
  ghost predicate Carries(x: Exchange, k: nat, v: seq<seq<real>>, at: nat, buffer: seq<real>)
    requires k < BLOCKS && Proper(x.box) && Sized(x, v)
  {
    PackedUpTo(x, k, v, at, buffer, x.fields, Node(0, 0, 0))
  }

  lemma CarriesValue(x: Exchange, k: nat, v: seq<seq<real>>, at: nat, buffer: seq<real>, fi: nat, n: Node)
    requires k < BLOCKS && Proper(x.box) && Sized(x, v) && Carries(x, k, v, at, buffer)
    requires fi < x.fields && AtSide(x, k, n)
    ensures at + MessageCount(x, k) <= |buffer| && 0 <= Entry(x, k, fi, n) < MessageCount(x, k)
    ensures Inside(x.box, n) && 0 <= Index(x.box, n) < BoxSize(x.box)
    ensures buffer[at + Entry(x, k, fi, n)] == v[fi][Index(x.box, n)]
  {
    hide Entry, AtSide, MessageCount, Index, BoxSize;
  }

  lemma PackStep(x: Exchange, k: nat, v: seq<seq<real>>, at: nat, buffer: seq<real>, fi: nat, n: Node)
    requires k < BLOCKS && Proper(x.box) && Sized(x, v) && fi < x.fields && AtSide(x, k, n)
    requires PackedUpTo(x, k, v, at, buffer, fi, n)
    ensures 0 <= Entry(x, k, fi, n) < MessageCount(x, k) && 0 <= Index(x.box, n) < BoxSize(x.box)
    ensures at + MessageCount(x, k) <= |buffer|
    ensures PackedUpTo(x, k, v, at, buffer[at + Entry(x, k, fi, n) := v[fi][Index(x.box, n)]], fi,
                       Node(n.z, n.y, n.x + 1))
  {
    hide Entry, AtSide, MessageCount, Index, BoxSize;
    EntryInRange(x, k, fi, n);
    IndexFits(x, k, n);
    forall gi, m | 0 <= gi < x.fields && AtSide(x, k, m) && Entry(x, k, gi, m) == Entry(x, k, fi, n)
      ensures gi == fi && m == n
    {
      EntryIsInjective(x, k, gi, m, fi, n);
    }
  }

  /** The ranges of the loops over a side. */
  datatype Ranges = Ranges(zLo: int, zHi: int, yLo: int, yHi: int, xLo: int, xHi: int)

  function RangesOf(x: Exchange, k: nat): Ranges
    requires k < BLOCKS
  {
    var d := DirAt(k);
    Ranges(Lo(d.p, x.box.dz), Hi(d.p, x.box.dz), Lo(d.r, x.box.dy), Hi(d.r, x.box.dy), Lo(d.c, x.box.dx),
           Hi(d.c, x.box.dx))
  }

  /** The ranges are those of the side. */
  ghost predicate Covers(x: Exchange, k: nat, r: Ranges)
    requires k < BLOCKS
  {
    && 0 <= r.zLo < r.zHi && 0 <= r.yLo < r.yHi && 0 <= r.xLo < r.xHi
    && forall n :: AtSide(x, k, n) <==> r.zLo <= n.z < r.zHi && r.yLo <= n.y < r.yHi && r.xLo <= n.x < r.xHi
  }

  lemma RangesCover(x: Exchange, k: nat)
    requires k < BLOCKS && Proper(x.box)
    ensures Covers(x, k, RangesOf(x, k))
    ensures MessageCount(x, k) >= 0
  {
    hide BlockAt, DirAt, BlockOf, Count;
    BlocksCoverNeighbours(k);
    CountBySide(x.box, k, x.box.dz + x.box.dy + x.box.dx);
    Monotone(0, x.fields, Count(x.box, DirAt(k)));
  }

  /** A finished row leads to the next one. */
  lemma PackRowEnds(x: Exchange, k: nat, v: seq<seq<real>>, at: nat, buffer: seq<real>, fi: nat, z: int, y: int,
                    r: Ranges)
    requires k < BLOCKS && Proper(x.box) && Sized(x, v) && Covers(x, k, r)
    requires PackedUpTo(x, k, v, at, buffer, fi, Node(z, y, r.xHi))
    ensures PackedUpTo(x, k, v, at, buffer, fi, Node(z, y + 1, r.xLo))
  {
    hide Entry, MessageCount, Index, BoxSize, AtSide;
  }

  /** A finished plane leads to the next one. */
  lemma PackPlaneEnds(x: Exchange, k: nat, v: seq<seq<real>>, at: nat, buffer: seq<real>, fi: nat, z: int, r: Ranges)
    requires k < BLOCKS && Proper(x.box) && Sized(x, v) && Covers(x, k, r)
    requires PackedUpTo(x, k, v, at, buffer, fi, Node(z, r.yHi, r.xLo))
    ensures PackedUpTo(x, k, v, at, buffer, fi, Node(z + 1, r.yLo, r.xLo))
  {
    hide Entry, MessageCount, Index, BoxSize, AtSide;
  }

  /** A finished field leads to the next one. */
  lemma PackFieldEnds(x: Exchange, k: nat, v: seq<seq<real>>, at: nat, buffer: seq<real>, fi: nat, r: Ranges)
    requires k < BLOCKS && Proper(x.box) && Sized(x, v) && Covers(x, k, r)
    requires PackedUpTo(x, k, v, at, buffer, fi, Node(r.zHi, r.yLo, r.xLo))
    ensures PackedUpTo(x, k, v, at, buffer, fi + 1, Node(r.zLo, r.yLo, r.xLo))
  {
    hide Entry, MessageCount, Index, BoxSize, AtSide;
  }

  lemma PackStarts(x: Exchange, k: nat, v: seq<seq<real>>, at: nat, buffer: seq<real>, r: Ranges)
    requires k < BLOCKS && Proper(x.box) && Sized(x, v) && at + MessageCount(x, k) <= |buffer| && Covers(x, k, r)
    ensures PackedUpTo(x, k, v, at, buffer, 0, Node(r.zLo, r.yLo, r.xLo))
  {
    hide Entry, MessageCount, Index, BoxSize, AtSide;
  }

  lemma PackEnds(x: Exchange, k: nat, v: seq<seq<real>>, at: nat, buffer: seq<real>, n: Node)
    requires k < BLOCKS && Proper(x.box) && Sized(x, v) && PackedUpTo(x, k, v, at, buffer, x.fields, n)
    ensures Carries(x, k, v, at, buffer)
  {
    hide Entry, MessageCount, Index, BoxSize, AtSide;
  }

  lemma FieldValue(x: Exchange, k: nat, fields: array2<real>, fi: nat, n: Node)
    requires k < BLOCKS && Proper(x.box) && Sized(x, Contents(fields)) && fi < x.fields && AtSide(x, k, n)
    ensures fi < fields.Length0 && 0 <= Index(x.box, n) < fields.Length1
    ensures Contents(fields)[fi][Index(x.box, n)] == fields[fi, Index(x.box, n)]
  {
    hide DirAt, Index, BoxSize;
    IndexFits(x, k, n);
    assert |Contents(fields)[fi]| == fields.Length1;
  }

  method PackRow(x: Exchange, k: nat, fields: array2<real>, at: nat, buffer: array<real>, fi: nat, z: int, y: int,
                 r: Ranges)
    requires k < BLOCKS && Proper(x.box) && Sized(x, Contents(fields)) && fi < x.fields && Covers(x, k, r)
    requires at <= buffer.Length && r.zLo <= z < r.zHi && r.yLo <= y < r.yHi
    requires PackedUpTo(x, k, Contents(fields), at, buffer[..], fi, Node(z, y, r.xLo))
    modifies buffer
    ensures PackedUpTo(x, k, Contents(fields), at, buffer[..], fi, Node(z, y + 1, r.xLo))
            && buffer[..at] == old(buffer[..at])
  {
    hide PackedUpTo, Entry, Index, MessageCount, AtSide, Sized, BoxSize, Contents;
    ghost var v := Contents(fields);
    for c := r.xLo to r.xHi
      invariant PackedUpTo(x, k, v, at, buffer[..], fi, Node(z, y, c)) && buffer[..at] == old(buffer[..at])
    {
      var n := Node(z, y, c);
      PackStep(x, k, v, at, buffer[..], fi, n);
      FieldValue(x, k, fields, fi, n);
      ghost var was := buffer[..];
      buffer[at + Entry(x, k, fi, n)] := fields[fi, Index(x.box, n)];
      assert buffer[..] == was[at + Entry(x, k, fi, n) := v[fi][Index(x.box, n)]];
      assert buffer[..at] == was[..at];
    }
    PackRowEnds(x, k, v, at, buffer[..], fi, z, y, r);
  }

  /** One block of `CommSend` fills its slot: every field in turn, along planes, rows and columns of the side. */
  method Pack(x: Exchange, k: nat, fields: array2<real>, at: nat, buffer: array<real>)
    requires k < BLOCKS && Proper(x.box) && Sized(x, Contents(fields))
    requires at <= at + MessageCount(x, k) <= buffer.Length
    modifies buffer
    ensures Carries(x, k, Contents(fields), at, buffer[..]) && buffer[..at] == old(buffer[..at])
  {
    hide PackedUpTo, Entry, Index, MessageCount, RangesOf, Sized, BoxSize, Contents, AtSide;
    RangesCover(x, k);
    ghost var v := Contents(fields);
    var r := RangesOf(x, k);
    PackStarts(x, k, v, at, buffer[..], r);
    for fi := 0 to x.fields
      invariant PackedUpTo(x, k, v, at, buffer[..], fi, Node(r.zLo, r.yLo, r.xLo)) && buffer[..at] == old(buffer[..at])
    {
      for z := r.zLo to r.zHi
        invariant PackedUpTo(x, k, v, at, buffer[..], fi, Node(z, r.yLo, r.xLo)) && buffer[..at] == old(buffer[..at])
      {
        for y := r.yLo to r.yHi
          invariant PackedUpTo(x, k, v, at, buffer[..], fi, Node(z, y, r.xLo)) && buffer[..at] == old(buffer[..at])
        {
          PackRow(x, k, fields, at, buffer, fi, z, y, r);
        }
        PackPlaneEnds(x, k, v, at, buffer[..], fi, z, r);
      }
      PackFieldEnds(x, k, v, at, buffer[..], fi, r);
    }
    PackEnds(x, k, v, at, buffer[..], Node(r.zLo, r.yLo, r.xLo));
  }

  // ----- CommSend -----

  /** The exchange uses buffers that were made for this mesh. */
  ghost predicate Ready(x: Exchange, a: Place, sizes: (nat, nat, nat), bufferSize: int) {
    && InGrid(x.tp, a) && FitsMesh(x, sizes.0, sizes.1, sizes.2)
    && bufferSize == SetupCommBuffers(x.tp, a, sizes.0, sizes.1, sizes.2).comBufSize
  }

  /** A block that runs has room in the buffer, behind the messages of the earlier blocks. */
  lemma RoomForBlock(x: Exchange, half: Half, a: Place, k: nat, sizes: (nat, nat, nat), bufferSize: int)
    requires k < BLOCKS && Ready(x, a, sizes, bufferSize) && On(x, half, a, k)
    ensures 0 <= MessageCount(x, k) && Offset(x, half, a, k) + MessageCount(x, k) <= bufferSize
    ensures forall j :: k < j <= BLOCKS ==> Offset(x, half, a, k) + MessageCount(x, k) <= Offset(x, half, a, j)
  {
    hide Offset, On, MessageCount, SlotSize, NeighbourSlots, SetupCommBuffers;
    RangesCover(x, k);
    MessageFitsSlot(x, k, sizes.0, sizes.1, sizes.2);
    OffsetsGrow(x, half, a, k, BLOCKS);
    OffsetsBelowNeighbours(x, half, a, BLOCKS);
    BuffersHoldNeighbours(x, a, sizes.0, sizes.1, sizes.2);
    forall j | k < j <= BLOCKS ensures Offset(x, half, a, k) + MessageCount(x, k) <= Offset(x, half, a, j) {
      OffsetsGrow(x, half, a, k, j);
    }
  }

  /** The messages of the first `k` blocks are in the send buffer, each in its own slot. */
  ghost predicate AllCarried(x: Exchange, v: seq<seq<real>>, a: Place, k: nat, buffer: seq<real>)
    requires k <= BLOCKS && Proper(x.box) && Sized(x, v)
  {
    forall j :: 0 <= j < k && On(x, Sending, a, j) ==> Carries(x, j, v, Offset(x, Sending, a, j), buffer)
  }

  lemma CarriesPrefix(x: Exchange, k: nat, v: seq<seq<real>>, at: nat, buffer: seq<real>, after: seq<real>, m: nat)
    requires k < BLOCKS && Proper(x.box) && Sized(x, v) && Carries(x, k, v, at, buffer)
    requires at + MessageCount(x, k) <= m <= |buffer| == |after| && buffer[..m] == after[..m]
    ensures Carries(x, k, v, at, after)
  {
    hide Entry, MessageCount, Index, BoxSize, AtSide;
    forall gi, n | 0 <= gi < x.fields && AtSide(x, k, n)
      ensures 0 <= Entry(x, k, gi, n) < MessageCount(x, k) && Inside(x.box, n) && 0 <= Index(x.box, n) < BoxSize(x.box)
      ensures after[at + Entry(x, k, gi, n)] == v[gi][Index(x.box, n)]
    {
      CarriesValue(x, k, v, at, buffer, gi, n);
      assert after[..m][at + Entry(x, k, gi, n)] == buffer[..m][at + Entry(x, k, gi, n)];
    }
  }

  lemma CarriedStep(x: Exchange, v: seq<seq<real>>, a: Place, k: nat, buffer: seq<real>, after: seq<real>,
                    sizes: (nat, nat, nat))
    requires k < BLOCKS && Proper(x.box) && Sized(x, v) && Ready(x, a, sizes, |buffer|) && On(x, Sending, a, k)
    requires AllCarried(x, v, a, k, buffer) && |after| == |buffer| && Offset(x, Sending, a, k) <= |buffer|
    requires after[..Offset(x, Sending, a, k)] == buffer[..Offset(x, Sending, a, k)]
    requires Carries(x, k, v, Offset(x, Sending, a, k), after)
    ensures AllCarried(x, v, a, k + 1, after)
  {
    hide Carries, Offset, On, MessageCount, Ready, Sized;
    forall j | 0 <= j < k && On(x, Sending, a, j) ensures Carries(x, j, v, Offset(x, Sending, a, j), after) {
      RoomForBlock(x, Sending, a, j, sizes, |buffer|);
      CarriesPrefix(x, j, v, Offset(x, Sending, a, j), buffer, after, Offset(x, Sending, a, k));
    }
  }

  lemma CarriedSkip(x: Exchange, v: seq<seq<real>>, a: Place, k: nat, m: nat, buffer: seq<real>)
    requires k <= m <= BLOCKS && Proper(x.box) && Sized(x, v) && AllCarried(x, v, a, k, buffer)
    requires forall j :: k <= j < m ==> !On(x, Sending, a, j)
    ensures AllCarried(x, v, a, m, buffer)
  {
    hide Carries, Offset, On;
  }

  /** One block of `CommSend`: pack and post. */
  method SendBlock(x: Exchange, a: Place, k: nat, fields: array2<real>, at: nat, buffer: array<real>,
                   ghost sizes: (nat, nat, nat))
    returns (post: Post)
    requires k < BLOCKS && Proper(x.box) && Sized(x, Contents(fields)) && Ready(x, a, sizes, buffer.Length)
    requires On(x, Sending, a, k) && at == Offset(x, Sending, a, k) && AllCarried(x, Contents(fields), a, k, buffer[..])
    modifies buffer
    ensures post == PostOf(x, Sending, a, k) && AllCarried(x, Contents(fields), a, k + 1, buffer[..])
  {
    hide AllCarried, Carries, Offset, On, MessageCount, Ready, Sized, Contents, Peer;
    RoomForBlock(x, Sending, a, k, sizes, buffer.Length);
    ghost var before := buffer[..];
    Pack(x, k, fields, at, buffer);
    CarriedStep(x, Contents(fields), a, k, before, buffer[..], sizes);
    post := Post(k, Peer(x, a, k), at, MessageCount(x, k));
  }

  /** `CommSend`: the sends a rank posts, in order; when it waits for them, every message is intact in its slot. */
  method CommSend(x: Exchange, a: Place, fields: array2<real>, buffer: array<real>, ghost sizes: (nat, nat, nat))
    returns (posts: seq<Post>)
    requires Proper(x.box) && Sized(x, Contents(fields)) && Ready(x, a, sizes, buffer.Length)
    modifies buffer
    ensures posts == Posted(x, Sending, a, BLOCKS)
    ensures AllCarried(x, Contents(fields), a, BLOCKS, buffer[..])
  {
    hide AllCarried, Posted, PostOf, Offset, Counters, BlockAt, Sized, Contents, SetupCommBuffers, FitsMesh;
    ghost var v := Contents(fields);
    CountersStart(x, Sending, a);
    NothingCarried(x, v, a, buffer[..]);
    posts := [];
    if x.tp == 1 {
      AloneIsSilent(x, Sending, a);
      AloneCarries(x, v, a, buffer[..]);
      return;
    }
    var maxPlaneComm, maxEdgeComm := x.fields * x.maxPlaneSize, x.fields * x.maxEdgeSize;
    var pmsg, emsg, cmsg := 0, 0, 0;
    for k := 0 to PLANES
      invariant posts == Posted(x, Sending, a, k) && Counters(x, Sending, a, k, pmsg, emsg, cmsg)
      invariant AllCarried(x, v, a, k, buffer[..])
    {
      if Present(x.tp, a, BlockAt(k).dir) && (BlockAt(k).underDoSend ==> x.flag) {
        Address(x, Sending, a, k, pmsg, emsg, cmsg);
        var post := SendBlock(x, a, k, fields, pmsg * maxPlaneComm, buffer, sizes);
        posts := posts + [post];
        CountersStep(x, Sending, a, k, pmsg, emsg, cmsg);
        pmsg := pmsg + 1;
      } else {
        CountersSkip(x, Sending, a, k, pmsg, emsg, cmsg);
        CarriedSkip(x, v, a, k, k + 1, buffer[..]);
      }
    }
    if x.planeOnly {
      NothingMore(x, Sending, a, PLANES, BLOCKS);
      CarriedSkip(x, v, a, PLANES, BLOCKS, buffer[..]);
      return;
    }
    for k := PLANES to EDGES_END
      invariant posts == Posted(x, Sending, a, k) && Counters(x, Sending, a, k, pmsg, emsg, cmsg)
      invariant AllCarried(x, v, a, k, buffer[..])
    {
      if Present(x.tp, a, BlockAt(k).dir) && (BlockAt(k).underDoSend ==> x.flag) {
        Address(x, Sending, a, k, pmsg, emsg, cmsg);
        var post := SendBlock(x, a, k, fields, pmsg * maxPlaneComm + emsg * maxEdgeComm, buffer, sizes);
        posts := posts + [post];
        CountersStep(x, Sending, a, k, pmsg, emsg, cmsg);
        emsg := emsg + 1;
      } else {
        CountersSkip(x, Sending, a, k, pmsg, emsg, cmsg);
        CarriedSkip(x, v, a, k, k + 1, buffer[..]);
      }
    }
    for k := EDGES_END to BLOCKS
      invariant posts == Posted(x, Sending, a, k) && Counters(x, Sending, a, k, pmsg, emsg, cmsg)
      invariant AllCarried(x, v, a, k, buffer[..])
    {
      if Present(x.tp, a, BlockAt(k).dir) && (BlockAt(k).underDoSend ==> x.flag) {
        Address(x, Sending, a, k, pmsg, emsg, cmsg);
        var post := SendBlock(x, a, k, fields,
                              pmsg * maxPlaneComm + emsg * maxEdgeComm + cmsg * CACHE_COHERENCE_PAD_REAL,
                              buffer, sizes);
        posts := posts + [post];
        CountersStep(x, Sending, a, k, pmsg, emsg, cmsg);
        cmsg := cmsg + 1;
      } else {
        CountersSkip(x, Sending, a, k, pmsg, emsg, cmsg);
        CarriedSkip(x, v, a, k, k + 1, buffer[..]);
      }
    }
  }

  lemma NothingCarried(x: Exchange, v: seq<seq<real>>, a: Place, buffer: seq<real>)
    requires Proper(x.box) && Sized(x, v)
    ensures AllCarried(x, v, a, 0, buffer)
  {}

  lemma AloneCarries(x: Exchange, v: seq<seq<real>>, a: Place, buffer: seq<real>)
    requires Proper(x.box) && Sized(x, v) && x.tp == 1 && InGrid(1, a)
    ensures AllCarried(x, v, a, BLOCKS, buffer)
  {
    hide BlockAt, BlockOf, Carries, Offset;
    forall k | 0 <= k < BLOCKS ensures !On(x, Sending, a, k) { BlocksCoverNeighbours(k); }
  }

  // ----- adding what arrives -----

  /** What the message of block `k`, received at `at`, holds for a node: nothing when the node is not on that side. */
  function Arrived(x: Exchange, k: nat, got: seq<real>, at: nat, fi: int, n: Node): real
    requires k < BLOCKS
  {
    var i := at + Entry(x, k, fi, n);
    if AtSide(x, k, n) && 0 <= i < |got| then got[i] else 0.0
  }

  /** The message has been added to the fields before `fi`, and to field `fi` before node `upTo`. */
  ghost predicate AddedUpTo(x: Exchange, k: nat, v: seq<seq<real>>, after: seq<seq<real>>, at: nat, got: seq<real>,
                            fi: int, upTo: Node)
    requires k < BLOCKS
  {
    && Sized(x, v) && Sized(x, after)
    && IndexesFit(x.box)
    && forall gi, n :: 0 <= gi < x.fields && Inside(x.box, n) ==>
         after[gi][Index(x.box, n)] == v[gi][Index(x.box, n)] +
           if gi < fi || (gi == fi && Before(n, upTo)) then Arrived(x, k, got, at, gi, n) else 0.0
  }

  lemma AddStarts(x: Exchange, k: nat, v: seq<seq<real>>, at: nat, got: seq<real>, r: Ranges)
    requires k < BLOCKS && Proper(x.box) && Sized(x, v) && Covers(x, k, r)
    ensures AddedUpTo(x, k, v, v, at, got, 0, Node(r.zLo, r.yLo, r.xLo))
  {
    hide Entry, Index, BoxSize, AtSide, Sized;
    AllIndexesFit(x.box);
  }

  ghost predicate IndexesFit(b: Box) {
    forall n :: Inside(b, n) ==> 0 <= Index(b, n) < BoxSize(b)
  }

  lemma AllIndexesFit(b: Box)
    ensures IndexesFit(b)
  {
    hide Index;
    forall n | Inside(b, n) ensures 0 <= Index(b, n) < BoxSize(b) { IndexInRange(b, n); }
  }

  lemma AddStep(x: Exchange, k: nat, v: seq<seq<real>>, after: seq<seq<real>>, at: nat, got: seq<real>, fi: nat,
                n: Node)
    requires k < BLOCKS && Proper(x.box) && fi < x.fields && AtSide(x, k, n)
    requires at + MessageCount(x, k) <= |got| && AddedUpTo(x, k, v, after, at, got, fi, n)
    ensures 0 <= Entry(x, k, fi, n) < MessageCount(x, k) && 0 <= Index(x.box, n) < BoxSize(x.box)
    ensures |after| == x.fields && |after[fi]| >= BoxSize(x.box)
    ensures var i := Index(x.box, n);
            AddedUpTo(x, k, v, after[fi := after[fi][i := after[fi][i] + got[at + Entry(x, k, fi, n)]]], at, got,
                      fi, Node(n.z, n.y, n.x + 1))
  {
    hide Entry, AtSide, MessageCount, Index, BoxSize;
    EntryInRange(x, k, fi, n);
    IndexFits(x, k, n);
    forall m | Inside(x.box, m) && Index(x.box, m) == Index(x.box, n) ensures m == n {
      IndexIsInjective(x.box, m, n);
    }
  }

  lemma AddRowEnds(x: Exchange, k: nat, v: seq<seq<real>>, after: seq<seq<real>>, at: nat, got: seq<real>,
                   fi: nat, z: int, y: int, r: Ranges)
    requires k < BLOCKS && Covers(x, k, r) && AddedUpTo(x, k, v, after, at, got, fi, Node(z, y, r.xHi))
    ensures AddedUpTo(x, k, v, after, at, got, fi, Node(z, y + 1, r.xLo))
  {
    hide Entry, Index, BoxSize, AtSide, Sized;
  }

  lemma AddPlaneEnds(x: Exchange, k: nat, v: seq<seq<real>>, after: seq<seq<real>>, at: nat, got: seq<real>,
                     fi: nat, z: int, r: Ranges)
    requires k < BLOCKS && Covers(x, k, r) && AddedUpTo(x, k, v, after, at, got, fi, Node(z, r.yHi, r.xLo))
    ensures AddedUpTo(x, k, v, after, at, got, fi, Node(z + 1, r.yLo, r.xLo))
  {
    hide Entry, Index, BoxSize, AtSide, Sized;
  }

  lemma AddFieldEnds(x: Exchange, k: nat, v: seq<seq<real>>, after: seq<seq<real>>, at: nat, got: seq<real>,
                     fi: nat, r: Ranges)
    requires k < BLOCKS && Covers(x, k, r) && AddedUpTo(x, k, v, after, at, got, fi, Node(r.zHi, r.yLo, r.xLo))
    ensures AddedUpTo(x, k, v, after, at, got, fi + 1, Node(r.zLo, r.yLo, r.xLo))
  {
    hide Entry, Index, BoxSize, AtSide, Sized;
  }

  method AddRow(x: Exchange, k: nat, fields: array2<real>, at: nat, got: seq<real>, fi: nat, z: int, y: int, r: Ranges,
                ghost v: seq<seq<real>>)
    requires k < BLOCKS && Proper(x.box) && fi < x.fields && Covers(x, k, r) && at + MessageCount(x, k) <= |got|
    requires r.zLo <= z < r.zHi && r.yLo <= y < r.yHi
    requires AddedUpTo(x, k, v, Contents(fields), at, got, fi, Node(z, y, r.xLo))
    modifies fields
    ensures AddedUpTo(x, k, v, Contents(fields), at, got, fi, Node(z, y + 1, r.xLo))
  {
    hide AddedUpTo, Entry, Index, MessageCount, AtSide, BoxSize;
    for c := r.xLo to r.xHi
      invariant AddedUpTo(x, k, v, Contents(fields), at, got, fi, Node(z, y, c))
    {
      var n := Node(z, y, c);
      AddStep(x, k, v, Contents(fields), at, got, fi, n);
      assert |Contents(fields)[fi]| == fields.Length1;
      var i := Index(x.box, n);
      Store(fields, fi, i, fields[fi, i] + got[at + Entry(x, k, fi, n)]);
    }
    AddRowEnds(x, k, v, Contents(fields), at, got, fi, z, y, r);
  }

  /** One block of `CommSBN`: the message is added to the nodes of its side, and nothing else changes. */
  method AddMessage(x: Exchange, k: nat, fields: array2<real>, at: nat, got: seq<real>)
    requires k < BLOCKS && Proper(x.box) && Sized(x, Contents(fields)) && at + MessageCount(x, k) <= |got|
    modifies fields
    ensures Sized(x, Contents(fields))
    ensures IndexesFit(x.box)
    ensures forall fi, n :: 0 <= fi < x.fields && Inside(x.box, n) ==>
              Contents(fields)[fi][Index(x.box, n)] ==
              old(Contents(fields))[fi][Index(x.box, n)] + Arrived(x, k, got, at, fi, n)
  {
    hide AddedUpTo, Entry, Index, MessageCount, AtSide, BoxSize, Contents, Covers, RangesOf, Sized, Arrived;
    RangesCover(x, k);
    ghost var v := Contents(fields);
    var r := RangesOf(x, k);
    RangesRise(x, k, r);
    AddStarts(x, k, v, at, got, r);
    for fi := 0 to x.fields
      invariant AddedUpTo(x, k, v, Contents(fields), at, got, fi, Node(r.zLo, r.yLo, r.xLo))
    {
      for z := r.zLo to r.zHi
        invariant AddedUpTo(x, k, v, Contents(fields), at, got, fi, Node(z, r.yLo, r.xLo))
      {
        for y := r.yLo to r.yHi
          invariant AddedUpTo(x, k, v, Contents(fields), at, got, fi, Node(z, y, r.xLo))
        {
          AddRow(x, k, fields, at, got, fi, z, y, r, v);
        }
        AddPlaneEnds(x, k, v, Contents(fields), at, got, fi, z, r);
      }
      AddFieldEnds(x, k, v, Contents(fields), at, got, fi, r);
    }
    AddEnds(x, k, v, Contents(fields), at, got, Node(r.zLo, r.yLo, r.xLo));
  }

  lemma RangesRise(x: Exchange, k: nat, r: Ranges)
    requires k < BLOCKS && Covers(x, k, r)
    ensures 0 <= r.zLo < r.zHi && 0 <= r.yLo < r.yHi && 0 <= r.xLo < r.xHi
  {}

  lemma AddEnds(x: Exchange, k: nat, v: seq<seq<real>>, after: seq<seq<real>>, at: nat, got: seq<real>, upTo: Node)
    requires k < BLOCKS && AddedUpTo(x, k, v, after, at, got, x.fields, upTo)
    ensures Sized(x, v) && Sized(x, after)
    ensures IndexesFit(x.box)
    ensures forall fi, n :: 0 <= fi < x.fields && Inside(x.box, n) ==>
              after[fi][Index(x.box, n)] == v[fi][Index(x.box, n)] + Arrived(x, k, got, at, fi, n)
  {
    hide Index, BoxSize, Arrived;
  }

  // ----- CommSBN -----

  /** What the messages of the first `k` blocks bring for a node. */
  function ArrivedSum(x: Exchange, a: Place, got: seq<real>, fi: int, n: Node, k: nat): real
    requires k <= BLOCKS
  {
    if k == 0 then 0.0
    else ArrivedSum(x, a, got, fi, n, k - 1) + FromBlock(x, a, got, fi, n, k - 1)
  }

  function FromBlock(x: Exchange, a: Place, got: seq<real>, fi: int, n: Node, k: nat): real
    requires k < BLOCKS
  {
    if On(x, Receiving, a, k) then Arrived(x, k, got, Offset(x, Receiving, a, k), fi, n) else 0.0
  }

  /** The messages of the first `k` blocks have been added. */
  ghost predicate SummedUpTo(x: Exchange, a: Place, v: seq<seq<real>>, after: seq<seq<real>>, got: seq<real>, k: nat)
    requires k <= BLOCKS
  {
    && Sized(x, v) && Sized(x, after) && IndexesFit(x.box)
    && forall fi, n :: 0 <= fi < x.fields && Inside(x.box, n) ==>
         after[fi][Index(x.box, n)] == v[fi][Index(x.box, n)] + ArrivedSum(x, a, got, fi, n, k)
  }

  lemma SummedStart(x: Exchange, a: Place, v: seq<seq<real>>, got: seq<real>)
    requires Sized(x, v)
    ensures SummedUpTo(x, a, v, v, got, 0)
  {
    hide Index, BoxSize;
    AllIndexesFit(x.box);
  }

  lemma SummedStep(x: Exchange, a: Place, v: seq<seq<real>>, mid: seq<seq<real>>, after: seq<seq<real>>,
                   got: seq<real>, k: nat)
    requires k < BLOCKS && SummedUpTo(x, a, v, mid, got, k) && Sized(x, after) && On(x, Receiving, a, k)
    requires forall fi, n :: 0 <= fi < x.fields && Inside(x.box, n) ==>
               after[fi][Index(x.box, n)] ==
               mid[fi][Index(x.box, n)] + Arrived(x, k, got, Offset(x, Receiving, a, k), fi, n)
    ensures SummedUpTo(x, a, v, after, got, k + 1)
  {
    hide Index, BoxSize, Arrived, Offset, On;
    forall fi, n | 0 <= fi < x.fields && Inside(x.box, n)
      ensures after[fi][Index(x.box, n)] == v[fi][Index(x.box, n)] + ArrivedSum(x, a, got, fi, n, k + 1)
    {
      assert mid[fi][Index(x.box, n)] == v[fi][Index(x.box, n)] + ArrivedSum(x, a, got, fi, n, k);
    }
  }

  lemma SummedSkip(x: Exchange, a: Place, v: seq<seq<real>>, after: seq<seq<real>>, got: seq<real>, k: nat)
    requires k < BLOCKS && SummedUpTo(x, a, v, after, got, k) && !On(x, Receiving, a, k)
    ensures SummedUpTo(x, a, v, after, got, k + 1)
  {
    hide Index, BoxSize, Arrived, Offset, On;
    forall fi, n | 0 <= fi < x.fields && Inside(x.box, n)
      ensures after[fi][Index(x.box, n)] == v[fi][Index(x.box, n)] + ArrivedSum(x, a, got, fi, n, k + 1)
    {
      assert after[fi][Index(x.box, n)] == v[fi][Index(x.box, n)] + ArrivedSum(x, a, got, fi, n, k);
    }
  }

  lemma {:induction false} SummedAlone(x: Exchange, a: Place, v: seq<seq<real>>, got: seq<real>, k: nat)
    requires k <= BLOCKS && Sized(x, v) && x.tp == 1 && InGrid(1, a)
    ensures SummedUpTo(x, a, v, v, got, k)
  {
    hide SummedUpTo, BlockAt, BlockOf, Sized;
    if k == 0 {
      SummedStart(x, a, v, got);
    } else {
      SummedAlone(x, a, v, got, k - 1);
      BlocksCoverNeighbours(k - 1);
      SummedSkip(x, a, v, v, got, k - 1);
    }
  }

  /** One block of `CommSBN`. */
  method SumBlock(x: Exchange, a: Place, k: nat, fields: array2<real>, at: nat, got: seq<real>,
                  ghost v: seq<seq<real>>, ghost sizes: (nat, nat, nat))
    requires k < BLOCKS && Proper(x.box) && Ready(x, a, sizes, |got|) && On(x, Receiving, a, k)
    requires at == Offset(x, Receiving, a, k) && SummedUpTo(x, a, v, Contents(fields), got, k)
    modifies fields
    ensures SummedUpTo(x, a, v, Contents(fields), got, k + 1)
  {
    hide Offset, On, MessageCount, Ready, Contents, Arrived, Index, BoxSize, ArrivedSum;
    RoomForBlock(x, Receiving, a, k, sizes, |got|);
    ghost var mid := Contents(fields);
    AddMessage(x, k, fields, at, got);
    SummedStep(x, a, v, mid, Contents(fields), got, k);
  }

  /** `CommSBN`, for an exchange in which `CommRecv` posted all its receives: whatever the buffer brought for a node is
      added to it. */
  method CommSBN(x: Exchange, a: Place, fields: array2<real>, got: seq<real>, ghost sizes: (nat, nat, nat))
    requires Proper(x.box) && Sized(x, Contents(fields)) && Ready(x, a, sizes, |got|)
    requires x.flag && !x.planeOnly
    modifies fields
    ensures SummedUpTo(x, a, old(Contents(fields)), Contents(fields), got, BLOCKS)
  {
    hide SummedUpTo, Posted, PostOf, Offset, Counters, BlockAt, Sized, Contents, SetupCommBuffers, FitsMesh;
    ghost var v := Contents(fields);
    if x.tp == 1 {
      SummedAlone(x, a, v, got, BLOCKS);
      return;
    }
    CountersStart(x, Receiving, a);
    SummedStart(x, a, v, got);
    var maxPlaneComm, maxEdgeComm := x.fields * x.maxPlaneSize, x.fields * x.maxEdgeSize;
    var pmsg, emsg, cmsg := 0, 0, 0;
    for k := 0 to PLANES
      invariant Counters(x, Receiving, a, k, pmsg, emsg, cmsg) && SummedUpTo(x, a, v, Contents(fields), got, k)
    {
      if Present(x.tp, a, BlockAt(k).dir) {
        Address(x, Receiving, a, k, pmsg, emsg, cmsg);
        SumBlock(x, a, k, fields, pmsg * maxPlaneComm, got, v, sizes);
        CountersStep(x, Receiving, a, k, pmsg, emsg, cmsg);
        pmsg := pmsg + 1;
      } else {
        CountersSkip(x, Receiving, a, k, pmsg, emsg, cmsg);
        SummedSkip(x, a, v, Contents(fields), got, k);
      }
    }
    for k := PLANES to EDGES_END
      invariant Counters(x, Receiving, a, k, pmsg, emsg, cmsg) && SummedUpTo(x, a, v, Contents(fields), got, k)
    {
      if Present(x.tp, a, BlockAt(k).dir) {
        Address(x, Receiving, a, k, pmsg, emsg, cmsg);
        SumBlock(x, a, k, fields, pmsg * maxPlaneComm + emsg * maxEdgeComm, got, v, sizes);
        CountersStep(x, Receiving, a, k, pmsg, emsg, cmsg);
        emsg := emsg + 1;
      } else {
        CountersSkip(x, Receiving, a, k, pmsg, emsg, cmsg);
        SummedSkip(x, a, v, Contents(fields), got, k);
      }
    }
    for k := EDGES_END to BLOCKS
      invariant Counters(x, Receiving, a, k, pmsg, emsg, cmsg) && SummedUpTo(x, a, v, Contents(fields), got, k)
    {
      if Present(x.tp, a, BlockAt(k).dir) {
        Address(x, Receiving, a, k, pmsg, emsg, cmsg);
        SumBlock(x, a, k, fields, pmsg * maxPlaneComm + emsg * maxEdgeComm + cmsg * CACHE_COHERENCE_PAD_REAL,
                 got, v, sizes);
        CountersStep(x, Receiving, a, k, pmsg, emsg, cmsg);
        cmsg := cmsg + 1;
      } else {
        CountersSkip(x, Receiving, a, k, pmsg, emsg, cmsg);
        SummedSkip(x, a, v, Contents(fields), got, k);
      }
    }
  }

  // ----- all ranks together -----

  /** The fields of every rank. */
  type World = Place -> seq<seq<real>>

  ghost predicate WorldSized(x: Exchange, w: World) {
    forall a :: InGrid(x.tp, a) ==> Sized(x, w(a))
  }

  /** The place of a rank's node in the one mesh of all ranks; neighbours share the nodes where they meet. */
  function Global(b: Box, a: Place, n: Node): Node {
    Node(a.p * (b.dz - 1) + n.z, a.r * (b.dy - 1) + n.y, a.c * (b.dx - 1) + n.x)
  }

  /** A rank's own numbering of a mesh node. */
  function Local(b: Box, a: Place, g: Node): Node {
    Node(g.z - a.p * (b.dz - 1), g.y - a.r * (b.dy - 1), g.x - a.c * (b.dx - 1))
  }

  /** What a rank holds for a mesh node: zero when it has no copy of it. */
  ghost function Copy(x: Exchange, w: World, fi: nat, g: Node, a: Place): real
    requires WorldSized(x, w) && fi < x.fields
  {
    AllIndexesFit(x.box);
    if InGrid(x.tp, a) && Inside(x.box, Local(x.box, a, g)) then w(a)[fi][Index(x.box, Local(x.box, a, g))] else 0.0
  }

  /** A message arrives as it was sent. */
  ghost predicate Transferred(count: int, sent: seq<real>, from: nat, got: seq<real>, to: nat) {
    && 0 <= count && from + count <= |sent| && to + count <= |got|
    && got[to..to + count] == sent[from..from + count]
  }

  /** The network, which knows ranks only: a receive at one rank and a send at another that name each other are matched,
      and the receive gets what was sent. */
  ghost predicate Delivered(x: Exchange, sent: Place -> seq<real>, got: Place -> seq<real>, a: Place) {
    forall b, k, j ::
      InGrid(x.tp, b) && 0 <= k < BLOCKS && 0 <= j < BLOCKS && On(x, Receiving, a, k) && On(x, Sending, b, j)
      && Peer(x, a, k) == Rank(x.tp, b) && Peer(x, b, j) == Rank(x.tp, a) ==>
        Transferred(MessageCount(x, k), sent(b), Offset(x, Sending, b, j), got(a), Offset(x, Receiving, a, k))
  }

  /** So every block's receive gets the message of the opposite block of its neighbour. */
  lemma DeliveredByBlock(x: Exchange, sent: Place -> seq<real>, got: Place -> seq<real>, a: Place, k: nat)
    requires Proper(x.box) && InGrid(x.tp, a) && Delivered(x, sent, got, a)
    requires k < BLOCKS && On(x, Receiving, a, k)
    ensures Transferred(MessageCount(x, k), sent(Step(a, DirAt(k))),
                        Offset(x, Sending, Step(a, DirAt(k)), Opposite(k)), got(a), Offset(x, Receiving, a, k))
  {
    hide Offset, On, MessageCount, BlockAt, DirAt, Opposite, Step, Transferred, Rank, Peer;
    ReceiveHasItsSend(x, a, k);
  }

  /** What has happened at every rank: `CommSend` filled `sent` from the fields, the network filled `got`. */
  ghost predicate Carried(x: Exchange, w: World, sent: Place -> seq<real>, got: Place -> seq<real>)
    requires Proper(x.box) && WorldSized(x, w)
  {
    forall a :: InGrid(x.tp, a) ==> AllCarried(x, w(a), a, BLOCKS, sent(a)) && Delivered(x, sent, got, a)
  }

  /** After that `CommSBN` made `after`. */
  ghost predicate Exchanged(x: Exchange, w: World, sent: Place -> seq<real>, got: Place -> seq<real>, after: World)
    requires Proper(x.box) && WorldSized(x, w)
  {
    Carried(x, w, sent, got) &&
    forall a :: InGrid(x.tp, a) ==> SummedUpTo(x, a, w(a), after(a), got(a), BLOCKS)
  }

  lemma FarAway(pos: int, v: int, size: int, other: int)
    requires size >= 2 && 0 <= v < size
    ensures other == pos - 1 ==> pos * (size - 1) + v - other * (size - 1) == v + (size - 1)
    ensures other == pos + 1 ==> pos * (size - 1) + v - other * (size - 1) == v - (size - 1)
    ensures other < pos - 1 || other > pos + 1 ==> !(0 <= pos * (size - 1) + v - other * (size - 1) < size)
  {
    var s := size - 1;
    assert pos * s - other * s == (pos - other) * s;
    if other < pos - 1 { Monotone(2, pos - other, s); }
    if other > pos + 1 { Monotone(pos - other, -2, s); }
  }

  /** A box along whose every axis the two ends are different nodes, as in every mesh with elements. */
  predicate Thick(b: Box) { b.dz >= 2 && b.dy >= 2 && b.dx >= 2 }

  /** A neighbour has a copy of a node exactly when the node is on the side facing it. */
  lemma NeighbourHolds(b: Box, a: Place, d: Dir, n: Node)
    requires Thick(b) && IsDir(d) && Inside(b, n)
    ensures Inside(b, Local(b, Step(a, d), Global(b, a, n))) <==> OnSide(b, d, n)
    ensures OnSide(b, d, n) ==> Local(b, Step(a, d), Global(b, a, n)) == Mirror(b, d, n)
  {
    FarAway(a.p, n.z, b.dz, a.p + d.p);
    FarAway(a.r, n.y, b.dy, a.r + d.r);
    FarAway(a.c, n.x, b.dx, a.c + d.c);
  }

  lemma OwnCopy(x: Exchange, w: World, fi: nat, a: Place, n: Node)
    requires WorldSized(x, w) && fi < x.fields && InGrid(x.tp, a) && Inside(x.box, n)
    ensures 0 <= Index(x.box, n) < BoxSize(x.box) && |w(a)| == x.fields && |w(a)[fi]| >= BoxSize(x.box)
    ensures Copy(x, w, fi, Global(x.box, a, n), a) == w(a)[fi][Index(x.box, n)]
  {
    hide Index, BoxSize;
    AllIndexesFit(x.box);
    assert Local(x.box, a, Global(x.box, a, n)) == n;
  }

  lemma TransferredValue(count: int, sent: seq<real>, from: nat, got: seq<real>, to: nat, e: int)
    requires Transferred(count, sent, from, got, to) && 0 <= e < count
    ensures got[to + e] == sent[from + e]
  {
    assert got[to..to + count][e] == sent[from..from + count][e];
  }

  lemma AtBoundary(x: Exchange, w: World, sent: Place -> seq<real>, got: Place -> seq<real>, a: Place, k: nat)
    requires Proper(x.box) && WorldSized(x, w) && Carried(x, w, sent, got)
    requires InGrid(x.tp, a) && k < BLOCKS && On(x, Receiving, a, k)
    ensures var b, j := Step(a, DirAt(k)), Opposite(k);
            InGrid(x.tp, b) && Sized(x, w(b)) && Carries(x, j, w(b), Offset(x, Sending, b, j), sent(b))
            && Transferred(MessageCount(x, k), sent(b), Offset(x, Sending, b, j), got(a), Offset(x, Receiving, a, k))
  {
    hide Offset, On, MessageCount, BlockAt, DirAt, Opposite, Carries, Sized, Step, Transferred;
    ReceiveHasItsSend(x, a, k);
    var b := Step(a, DirAt(k));
    assert AllCarried(x, w(b), b, BLOCKS, sent(b));
    DeliveredByBlock(x, sent, got, a, k);
  }

  /** What the receiving rank finds at a place of the message. */
  lemma ValueArrives(x: Exchange, k: nat, count: int, sent: seq<real>, from: nat, got: seq<real>, to: nat, fi: nat,
                     n: Node)
    requires k < BLOCKS && fi < x.fields && AtSide(x, k, n) && count == MessageCount(x, k)
    requires Transferred(count, sent, from, got, to)
    ensures from + count <= |sent| && 0 <= Entry(x, k, fi, n) < count
    ensures Arrived(x, k, got, to, fi, n) == sent[from + Entry(x, k, fi, n)]
  {
    hide MessageCount, AtSide, Entry, Transferred;
    EntryInRange(x, k, fi, n);
    TransferredValue(count, sent, from, got, to, Entry(x, k, fi, n));
    TransferredFits(count, sent, from, got, to);
  }

  /** The opposite block of the neighbour put its copy of the node at the same place. */
  lemma MirrorEntry(x: Exchange, k: nat, fi: nat, n: Node)
    requires Proper(x.box) && k < BLOCKS && fi < x.fields && AtSide(x, k, n)
    ensures AtSide(x, Opposite(k), Mirror(x.box, DirAt(k), n))
    ensures Entry(x, Opposite(k), fi, Mirror(x.box, DirAt(k), n)) == Entry(x, k, fi, n)
  {
    hide BlockAt, DirAt, BlockOf, Opposite, Pos, Count, OnSide, Mirror;
    BlocksCoverNeighbours(k);
    MirrorHasSamePlace(x.box, DirAt(k), n);
  }

  lemma CopyOfNeighbour(x: Exchange, w: World, a: Place, k: nat, fi: nat, n: Node)
    requires Thick(x.box) && WorldSized(x, w) && k < BLOCKS && fi < x.fields && AtSide(x, k, n)
    requires InGrid(x.tp, Step(a, DirAt(k)))
    ensures var b, m := Step(a, DirAt(k)), Mirror(x.box, DirAt(k), n);
            Inside(x.box, n) && Inside(x.box, m) && 0 <= Index(x.box, m) < BoxSize(x.box) && Sized(x, w(b))
            && Copy(x, w, fi, Global(x.box, a, n), b) == w(b)[fi][Index(x.box, m)]
  {
    hide BlockAt, DirAt, BlockOf, Index, BoxSize, Global, Local, Mirror, Step;
    BlocksCoverNeighbours(k);
    IndexFits(x, k, n);
    NeighbourHolds(x.box, a, DirAt(k), n);
    AllIndexesFit(x.box);
  }

  /** A message brings the neighbour's value at the mirror of the node. */
  lemma MessageBringsMirror(x: Exchange, w: World, sent: Place -> seq<real>, got: Place -> seq<real>,
                            a: Place, k: nat, fi: nat, n: Node)
    requires Proper(x.box) && WorldSized(x, w) && Carried(x, w, sent, got)
    requires InGrid(x.tp, a) && k < BLOCKS && fi < x.fields && On(x, Receiving, a, k) && AtSide(x, k, n)
    ensures var b, m := Step(a, DirAt(k)), Mirror(x.box, DirAt(k), n);
            && InGrid(x.tp, b) && Sized(x, w(b)) && Inside(x.box, m) && 0 <= Index(x.box, m) < BoxSize(x.box)
            && Arrived(x, k, got(a), Offset(x, Receiving, a, k), fi, n) == w(b)[fi][Index(x.box, m)]
  {
    hide Offset, On, MessageCount, BlockAt, DirAt, Opposite, AtSide, Entry, Index, BoxSize, Carries, Sized, Mirror,
         Step, Transferred, Carried, WorldSized, Arrived, Inside, InGrid;
    var b, j, m := Step(a, DirAt(k)), Opposite(k), Mirror(x.box, DirAt(k), n);
    AtBoundary(x, w, sent, got, a, k);
    MirrorEntry(x, k, fi, n);
    CarriesValue(x, j, w(b), Offset(x, Sending, b, j), sent(b), fi, m);
    ValueArrives(x, k, MessageCount(x, k), sent(b), Offset(x, Sending, b, j), got(a), Offset(x, Receiving, a, k), fi,
                 n);
  }

  lemma TransferredFits(count: int, sent: seq<real>, from: nat, got: seq<real>, to: nat)
    requires Transferred(count, sent, from, got, to)
    ensures to + count <= |got| && from + count <= |sent|
  {}

  /** A block contributes the copy of the neighbour it serves, if there is one. */
  lemma BlockBringsCopy(x: Exchange, w: World, sent: Place -> seq<real>, got: Place -> seq<real>,
                        a: Place, k: nat, fi: nat, n: Node)
    requires Thick(x.box) && WorldSized(x, w) && Carried(x, w, sent, got) && x.flag && !x.planeOnly
    requires InGrid(x.tp, a) && k < BLOCKS && fi < x.fields && Inside(x.box, n)
    ensures FromBlock(x, a, got(a), fi, n, k) == Copy(x, w, fi, Global(x.box, a, n), Step(a, DirAt(k)))
  {
    hide Offset, MessageCount, BlockAt, BlockOf, Opposite, Entry, OnSide, Index, BoxSize, Carried, Sized, IndexesFit,
         Global, Local, Mirror, Step, Present, WorldSized;
    BlocksCoverNeighbours(k);
    PresentIsInGrid(x.tp, a, DirAt(k));
    if On(x, Receiving, a, k) {
      if AtSide(x, k, n) {
        MessageBringsMirror(x, w, sent, got, a, k, fi, n);
        CopyOfNeighbour(x, w, a, k, fi, n);
      } else {
        NeighbourHolds(x.box, a, DirAt(k), n);
      }
    }
  }

  // ----- sums over all ranks -----

  ghost function ColSum(x: Exchange, w: World, fi: nat, g: Node, p: int, r: int, c: nat): real
    requires WorldSized(x, w) && fi < x.fields
  {
    if c == 0 then 0.0 else ColSum(x, w, fi, g, p, r, c - 1) + Copy(x, w, fi, g, Place(p, r, c - 1))
  }

  ghost function RowSum(x: Exchange, w: World, fi: nat, g: Node, p: int, r: nat): real
    requires WorldSized(x, w) && fi < x.fields
  {
    if r == 0 then 0.0 else RowSum(x, w, fi, g, p, r - 1) + ColSum(x, w, fi, g, p, r - 1, x.tp)
  }

  ghost function PlaneSum(x: Exchange, w: World, fi: nat, g: Node, p: nat): real
    requires WorldSized(x, w) && fi < x.fields
  {
    if p == 0 then 0.0 else PlaneSum(x, w, fi, g, p - 1) + RowSum(x, w, fi, g, p - 1, x.tp)
  }

  /** The sum of the copies that all ranks together hold of a mesh node. */
  ghost function SharedSum(x: Exchange, w: World, fi: nat, g: Node): real
    requires WorldSized(x, w) && fi < x.fields
  {
    PlaneSum(x, w, fi, g, x.tp)
  }

  /** Only a rank and its neighbours hold copies of its nodes. */
  lemma NoCopyFarAway(x: Exchange, w: World, fi: nat, a: Place, n: Node, b: Place)
    requires WorldSized(x, w) && fi < x.fields && Thick(x.box) && Inside(x.box, n)
    requires b.p < a.p - 1 || b.p > a.p + 1 || b.r < a.r - 1 || b.r > a.r + 1 || b.c < a.c - 1 || b.c > a.c + 1
    ensures Copy(x, w, fi, Global(x.box, a, n), b) == 0.0
  {
    hide Index, BoxSize, WorldSized;
    FarAway(a.p, n.z, x.box.dz, b.p);
    FarAway(a.r, n.y, x.box.dy, b.r);
    FarAway(a.c, n.x, x.box.dx, b.c);
  }

  function If(c: bool, v: real): real { if c then v else 0.0 }

  lemma {:induction false} ThreeCols(x: Exchange, w: World, fi: nat, a: Place, n: Node, g: Node, p: int, r: int, c: nat)
    requires WorldSized(x, w) && fi < x.fields && Thick(x.box) && Inside(x.box, n) && g == Global(x.box, a, n)
    ensures ColSum(x, w, fi, g, p, r, c) ==
            If(0 <= a.c - 1 < c, Copy(x, w, fi, g, Place(p, r, a.c - 1)))
            + If(0 <= a.c < c, Copy(x, w, fi, g, Place(p, r, a.c)))
            + If(0 <= a.c + 1 < c, Copy(x, w, fi, g, Place(p, r, a.c + 1)))
  {
    hide Copy, WorldSized, Global;
    if c > 0 {
      ThreeCols(x, w, fi, a, n, g, p, r, c - 1);
      if c - 1 < a.c - 1 || c - 1 > a.c + 1 { NoCopyFarAway(x, w, fi, a, n, Place(p, r, c - 1)); }
    }
  }

  lemma {:induction false} NoCols(x: Exchange, w: World, fi: nat, g: Node, p: int, r: int, c: nat)
    requires WorldSized(x, w) && fi < x.fields
    requires forall i :: 0 <= i < c ==> Copy(x, w, fi, g, Place(p, r, i)) == 0.0
    ensures ColSum(x, w, fi, g, p, r, c) == 0.0
  {
    hide Copy, WorldSized;
    if c > 0 { NoCols(x, w, fi, g, p, r, c - 1); }
  }

  lemma {:induction false} ThreeRows(x: Exchange, w: World, fi: nat, a: Place, n: Node, g: Node, p: int, r: nat)
    requires WorldSized(x, w) && fi < x.fields && Thick(x.box) && Inside(x.box, n) && g == Global(x.box, a, n)
    ensures RowSum(x, w, fi, g, p, r) ==
            If(0 <= a.r - 1 < r, ColSum(x, w, fi, g, p, a.r - 1, x.tp))
            + If(0 <= a.r < r, ColSum(x, w, fi, g, p, a.r, x.tp))
            + If(0 <= a.r + 1 < r, ColSum(x, w, fi, g, p, a.r + 1, x.tp))
  {
    hide Copy, WorldSized, Global, ColSum;
    if r > 0 {
      ThreeRows(x, w, fi, a, n, g, p, r - 1);
      if r - 1 < a.r - 1 || r - 1 > a.r + 1 {
        var q := r - 1;
        forall i | 0 <= i < x.tp ensures Copy(x, w, fi, g, Place(p, q, i)) == 0.0 {
          NoCopyFarAway(x, w, fi, a, n, Place(p, q, i));
        }
        NoCols(x, w, fi, g, p, r - 1, x.tp);
      }
    }
  }

  lemma {:induction false} NoRows(x: Exchange, w: World, fi: nat, g: Node, p: int, r: nat)
    requires WorldSized(x, w) && fi < x.fields
    requires forall i, j :: 0 <= i < r && 0 <= j < x.tp ==> Copy(x, w, fi, g, Place(p, i, j)) == 0.0
    ensures RowSum(x, w, fi, g, p, r) == 0.0
  {
    hide Copy, WorldSized, ColSum;
    if r > 0 {
      NoRows(x, w, fi, g, p, r - 1);
      NoCols(x, w, fi, g, p, r - 1, x.tp);
    }
  }

  lemma {:induction false} ThreePlanes(x: Exchange, w: World, fi: nat, a: Place, n: Node, g: Node, p: nat)
    requires WorldSized(x, w) && fi < x.fields && Thick(x.box) && Inside(x.box, n) && g == Global(x.box, a, n)
    ensures PlaneSum(x, w, fi, g, p) ==
            If(0 <= a.p - 1 < p, RowSum(x, w, fi, g, a.p - 1, x.tp))
            + If(0 <= a.p < p, RowSum(x, w, fi, g, a.p, x.tp))
            + If(0 <= a.p + 1 < p, RowSum(x, w, fi, g, a.p + 1, x.tp))
  {
    hide Copy, WorldSized, Global, RowSum;
    if p > 0 {
      ThreePlanes(x, w, fi, a, n, g, p - 1);
      if p - 1 < a.p - 1 || p - 1 > a.p + 1 {
        var q := p - 1;
        forall i, j | 0 <= i < x.tp && 0 <= j < x.tp ensures Copy(x, w, fi, g, Place(q, i, j)) == 0.0 {
          NoCopyFarAway(x, w, fi, a, n, Place(q, i, j));
        }
        NoRows(x, w, fi, g, p - 1, x.tp);
      }
    }
  }

  /** The copy of the rank a step away. */
  ghost function Near(x: Exchange, w: World, fi: nat, g: Node, a: Place, p: int, r: int, c: int): real
    requires WorldSized(x, w) && fi < x.fields
  {
    Copy(x, w, fi, g, Place(a.p + p, a.r + r, a.c + c))
  }

  ghost function NearCols(x: Exchange, w: World, fi: nat, g: Node, a: Place, p: int, r: int): real
    requires WorldSized(x, w) && fi < x.fields
  {
    Near(x, w, fi, g, a, p, r, -1) + Near(x, w, fi, g, a, p, r, 0) + Near(x, w, fi, g, a, p, r, 1)
  }

  ghost function NearRows(x: Exchange, w: World, fi: nat, g: Node, a: Place, p: int): real
    requires WorldSized(x, w) && fi < x.fields
  {
    NearCols(x, w, fi, g, a, p, -1) + NearCols(x, w, fi, g, a, p, 0) + NearCols(x, w, fi, g, a, p, 1)
  }

  lemma OutsideGrid(x: Exchange, w: World, fi: nat, g: Node, a: Place)
    requires WorldSized(x, w) && fi < x.fields && !InGrid(x.tp, a)
    ensures Copy(x, w, fi, g, a) == 0.0
  {}

  lemma ColsAreNear(x: Exchange, w: World, fi: nat, a: Place, n: Node, g: Node, p: int, r: int)
    requires WorldSized(x, w) && fi < x.fields && Thick(x.box) && Inside(x.box, n) && g == Global(x.box, a, n)
    ensures ColSum(x, w, fi, g, a.p + p, a.r + r, x.tp) == NearCols(x, w, fi, g, a, p, r)
  {
    hide Copy, WorldSized, Global, ColSum;
    var q, s := a.p + p, a.r + r;
    ThreeCols(x, w, fi, a, n, g, q, s, x.tp);
    forall c | !(0 <= c < x.tp) ensures Copy(x, w, fi, g, Place(q, s, c)) == 0.0 {
      OutsideGrid(x, w, fi, g, Place(q, s, c));
    }
  }

  lemma ColsOutsideGrid(x: Exchange, w: World, fi: nat, g: Node, p: int, r: int)
    requires WorldSized(x, w) && fi < x.fields && (!(0 <= p < x.tp) || !(0 <= r < x.tp))
    ensures ColSum(x, w, fi, g, p, r, x.tp) == 0.0
  {
    hide Copy, WorldSized, ColSum;
    forall i | 0 <= i < x.tp ensures Copy(x, w, fi, g, Place(p, r, i)) == 0.0 {
      OutsideGrid(x, w, fi, g, Place(p, r, i));
    }
    NoCols(x, w, fi, g, p, r, x.tp);
  }

  lemma RowsAreNear(x: Exchange, w: World, fi: nat, a: Place, n: Node, g: Node, p: int)
    requires WorldSized(x, w) && fi < x.fields && Thick(x.box) && Inside(x.box, n) && g == Global(x.box, a, n)
    ensures RowSum(x, w, fi, g, a.p + p, x.tp) == NearRows(x, w, fi, g, a, p)
  {
    hide Copy, WorldSized, Global, ColSum, RowSum, NearCols;
    ThreeRows(x, w, fi, a, n, g, a.p + p, x.tp);
    ColsAreNear(x, w, fi, a, n, g, p, -1);
    ColsAreNear(x, w, fi, a, n, g, p, 0);
    ColsAreNear(x, w, fi, a, n, g, p, 1);
    if !(0 <= a.r - 1 < x.tp) { ColsOutsideGrid(x, w, fi, g, a.p + p, a.r - 1); }
    if !(0 <= a.r < x.tp) { ColsOutsideGrid(x, w, fi, g, a.p + p, a.r); }
    if !(0 <= a.r + 1 < x.tp) { ColsOutsideGrid(x, w, fi, g, a.p + p, a.r + 1); }
  }

  lemma RowsOutsideGrid(x: Exchange, w: World, fi: nat, g: Node, p: int)
    requires WorldSized(x, w) && fi < x.fields && !(0 <= p < x.tp)
    ensures RowSum(x, w, fi, g, p, x.tp) == 0.0
  {
    hide Copy, WorldSized, RowSum;
    forall i, j | 0 <= i < x.tp && 0 <= j < x.tp ensures Copy(x, w, fi, g, Place(p, i, j)) == 0.0 {
      OutsideGrid(x, w, fi, g, Place(p, i, j));
    }
    NoRows(x, w, fi, g, p, x.tp);
  }

  /** The copies of all ranks are those of the rank and of its 26 neighbours. */
  lemma SharersAreNear(x: Exchange, w: World, fi: nat, a: Place, n: Node, g: Node)
    requires WorldSized(x, w) && fi < x.fields && Thick(x.box) && Inside(x.box, n) && g == Global(x.box, a, n)
    ensures SharedSum(x, w, fi, g) ==
            NearRows(x, w, fi, g, a, -1) + NearRows(x, w, fi, g, a, 0) + NearRows(x, w, fi, g, a, 1)
  {
    hide WorldSized, Global, RowSum, NearRows, PlaneSum;
    ThreePlanes(x, w, fi, a, n, g, x.tp);
    RowsAreNear(x, w, fi, a, n, g, -1);
    RowsAreNear(x, w, fi, a, n, g, 0);
    RowsAreNear(x, w, fi, a, n, g, 1);
    if !(0 <= a.p - 1 < x.tp) { RowsOutsideGrid(x, w, fi, g, a.p - 1); }
    if !(0 <= a.p < x.tp) { RowsOutsideGrid(x, w, fi, g, a.p); }
    if !(0 <= a.p + 1 < x.tp) { RowsOutsideGrid(x, w, fi, g, a.p + 1); }
  }

  /** The copies of the neighbours that the first `k` blocks serve. */
  ghost function NearSum(x: Exchange, w: World, fi: nat, g: Node, a: Place, k: nat): real
    requires WorldSized(x, w) && fi < x.fields && k <= BLOCKS
  {
    if k == 0 then 0.0
    else NearSum(x, w, fi, g, a, k - 1) + Near(x, w, fi, g, a, DirAt(k - 1).p, DirAt(k - 1).r, DirAt(k - 1).c)
  }

  lemma NearStep(x: Exchange, w: World, fi: nat, g: Node, a: Place, k: nat, p: int, r: int, c: int)
    requires WorldSized(x, w) && fi < x.fields && k < BLOCKS && DirAt(k) == Dir(p, r, c)
    ensures NearSum(x, w, fi, g, a, k + 1) == NearSum(x, w, fi, g, a, k) + Near(x, w, fi, g, a, p, r, c)
  {
    hide WorldSized, Near, BlockAt, DirAt;
  }

  lemma NearFaces(x: Exchange, w: World, fi: nat, g: Node, a: Place)
    requires WorldSized(x, w) && fi < x.fields
    ensures NearSum(x, w, fi, g, a, PLANES) ==
            Near(x, w, fi, g, a, -1, 0, 0) + Near(x, w, fi, g, a, 1, 0, 0) + Near(x, w, fi, g, a, 0, -1, 0)
            + Near(x, w, fi, g, a, 0, 1, 0) + Near(x, w, fi, g, a, 0, 0, -1) + Near(x, w, fi, g, a, 0, 0, 1)
  {
    hide WorldSized, Near, NearSum;
    NearStart(x, w, fi, g, a);
    NearStep(x, w, fi, g, a, 0, -1, 0, 0);
    NearStep(x, w, fi, g, a, 1, 1, 0, 0);
    NearStep(x, w, fi, g, a, 2, 0, -1, 0);
    NearStep(x, w, fi, g, a, 3, 0, 1, 0);
    NearStep(x, w, fi, g, a, 4, 0, 0, -1);
    NearStep(x, w, fi, g, a, 5, 0, 0, 1);
  }

  lemma NearStart(x: Exchange, w: World, fi: nat, g: Node, a: Place)
    requires WorldSized(x, w) && fi < x.fields
    ensures NearSum(x, w, fi, g, a, 0) == 0.0
  {}

  lemma NearEdges(x: Exchange, w: World, fi: nat, g: Node, a: Place)
    requires WorldSized(x, w) && fi < x.fields
    ensures NearSum(x, w, fi, g, a, EDGES_END) == NearSum(x, w, fi, g, a, PLANES)
            + Near(x, w, fi, g, a, 0, -1, -1) + Near(x, w, fi, g, a, -1, -1, 0) + Near(x, w, fi, g, a, -1, 0, -1)
            + Near(x, w, fi, g, a, 0, 1, 1) + Near(x, w, fi, g, a, 1, 1, 0) + Near(x, w, fi, g, a, 1, 0, 1)
            + Near(x, w, fi, g, a, 0, 1, -1) + Near(x, w, fi, g, a, 1, -1, 0) + Near(x, w, fi, g, a, 1, 0, -1)
            + Near(x, w, fi, g, a, 0, -1, 1) + Near(x, w, fi, g, a, -1, 1, 0) + Near(x, w, fi, g, a, -1, 0, 1)
  {
    hide WorldSized, Near, NearSum;
    NearStep(x, w, fi, g, a, 6, 0, -1, -1);
    NearStep(x, w, fi, g, a, 7, -1, -1, 0);
    NearStep(x, w, fi, g, a, 8, -1, 0, -1);
    NearStep(x, w, fi, g, a, 9, 0, 1, 1);
    NearStep(x, w, fi, g, a, 10, 1, 1, 0);
    NearStep(x, w, fi, g, a, 11, 1, 0, 1);
    NearStep(x, w, fi, g, a, 12, 0, 1, -1);
    NearStep(x, w, fi, g, a, 13, 1, -1, 0);
    NearStep(x, w, fi, g, a, 14, 1, 0, -1);
    NearStep(x, w, fi, g, a, 15, 0, -1, 1);
    NearStep(x, w, fi, g, a, 16, -1, 1, 0);
    NearStep(x, w, fi, g, a, 17, -1, 0, 1);
  }

  lemma NearCorners(x: Exchange, w: World, fi: nat, g: Node, a: Place)
    requires WorldSized(x, w) && fi < x.fields
    ensures NearSum(x, w, fi, g, a, BLOCKS) == NearSum(x, w, fi, g, a, EDGES_END)
            + Near(x, w, fi, g, a, -1, -1, -1) + Near(x, w, fi, g, a, 1, -1, -1) + Near(x, w, fi, g, a, -1, -1, 1)
            + Near(x, w, fi, g, a, 1, -1, 1) + Near(x, w, fi, g, a, -1, 1, -1) + Near(x, w, fi, g, a, 1, 1, -1)
            + Near(x, w, fi, g, a, -1, 1, 1) + Near(x, w, fi, g, a, 1, 1, 1)
  {
    hide WorldSized, Near, NearSum;
    NearStep(x, w, fi, g, a, 18, -1, -1, -1);
    NearStep(x, w, fi, g, a, 19, 1, -1, -1);
    NearStep(x, w, fi, g, a, 20, -1, -1, 1);
    NearStep(x, w, fi, g, a, 21, 1, -1, 1);
    NearStep(x, w, fi, g, a, 22, -1, 1, -1);
    NearStep(x, w, fi, g, a, 23, 1, 1, -1);
    NearStep(x, w, fi, g, a, 24, -1, 1, 1);
    NearStep(x, w, fi, g, a, 25, 1, 1, 1);
  }

  /** The 26 blocks reach every neighbour once. */
  lemma BlocksReachAll(x: Exchange, w: World, fi: nat, g: Node, a: Place)
    requires WorldSized(x, w) && fi < x.fields
    ensures Near(x, w, fi, g, a, 0, 0, 0) + NearSum(x, w, fi, g, a, BLOCKS) ==
            NearRows(x, w, fi, g, a, -1) + NearRows(x, w, fi, g, a, 0) + NearRows(x, w, fi, g, a, 1)
  {
    hide WorldSized, Near, NearSum;
    NearFaces(x, w, fi, g, a);
    NearEdges(x, w, fi, g, a);
    NearCorners(x, w, fi, g, a);
  }

  lemma {:induction false} ArrivedIsNear(x: Exchange, w: World, sent: Place -> seq<real>, got: Place -> seq<real>,
                                         a: Place, fi: nat, n: Node, k: nat)
    requires Thick(x.box) && WorldSized(x, w) && Carried(x, w, sent, got) && x.flag && !x.planeOnly
    requires InGrid(x.tp, a) && fi < x.fields && Inside(x.box, n) && k <= BLOCKS
    ensures ArrivedSum(x, a, got(a), fi, n, k) == NearSum(x, w, fi, Global(x.box, a, n), a, k)
  {
    hide WorldSized, Carried, FromBlock, Copy, BlockAt, DirAt, Global;
    if k > 0 {
      ArrivedIsNear(x, w, sent, got, a, fi, n, k - 1);
      BlockBringsCopy(x, w, sent, got, a, k - 1, fi, n);
    }
  }

  /** After the exchange every copy of a mesh node, on a face, an edge, a corner or nowhere shared, holds the sum of the
      original copies of all ranks that have one. */
  lemma EveryCopyHoldsTheSum(x: Exchange, w: World, sent: Place -> seq<real>, got: Place -> seq<real>, after: World,
                             a: Place, fi: nat, n: Node)
    requires Thick(x.box) && WorldSized(x, w) && Exchanged(x, w, sent, got, after) && x.flag && !x.planeOnly
    requires InGrid(x.tp, a) && fi < x.fields && Inside(x.box, n)
    ensures Sized(x, after(a)) && 0 <= Index(x.box, n) < BoxSize(x.box)
    ensures after(a)[fi][Index(x.box, n)] == SharedSum(x, w, fi, Global(x.box, a, n))
  {
    hide Index, BoxSize, Global, Copy, SharedSum, NearRows, NearSum, ArrivedSum, Sized;
    AfterIsSum(x, w, sent, got, after, a, fi, n);
    ArrivedIsNear(x, w, sent, got, a, fi, n, BLOCKS);
    OwnCopy(x, w, fi, a, n);
    BlocksReachAll(x, w, fi, Global(x.box, a, n), a);
    SharersAreNear(x, w, fi, a, n, Global(x.box, a, n));
  }

  lemma AfterIsSum(x: Exchange, w: World, sent: Place -> seq<real>, got: Place -> seq<real>, after: World,
                   a: Place, fi: nat, n: Node)
    requires Proper(x.box) && WorldSized(x, w) && Exchanged(x, w, sent, got, after)
    requires InGrid(x.tp, a) && fi < x.fields && Inside(x.box, n)
    ensures Sized(x, w(a)) && Sized(x, after(a)) && 0 <= Index(x.box, n) < BoxSize(x.box)
    ensures after(a)[fi][Index(x.box, n)] == w(a)[fi][Index(x.box, n)] + ArrivedSum(x, a, got(a), fi, n, BLOCKS)
  {
    hide Index, BoxSize, ArrivedSum, AllCarried, Delivered;
  }

  /** So all copies of a mesh node agree. */
  lemma CopiesAgree(x: Exchange, w: World, sent: Place -> seq<real>, got: Place -> seq<real>, after: World,
                    a: Place, n: Node, b: Place, m: Node, fi: nat)
    requires Thick(x.box) && WorldSized(x, w) && Exchanged(x, w, sent, got, after) && x.flag && !x.planeOnly
    requires InGrid(x.tp, a) && InGrid(x.tp, b) && fi < x.fields && Inside(x.box, n) && Inside(x.box, m)
    requires Global(x.box, a, n) == Global(x.box, b, m)
    ensures Sized(x, after(a)) && Sized(x, after(b))
    ensures 0 <= Index(x.box, n) < BoxSize(x.box) && 0 <= Index(x.box, m) < BoxSize(x.box)
    ensures after(a)[fi][Index(x.box, n)] == after(b)[fi][Index(x.box, m)]
  {
    hide Exchanged, Index, BoxSize, Global, SharedSum, WorldSized;
    EveryCopyHoldsTheSum(x, w, sent, got, after, a, fi, n);
    EveryCopyHoldsTheSum(x, w, sent, got, after, b, fi, m);
  }

  lemma {:induction false} NothingArrives(x: Exchange, a: Place, got: seq<real>, fi: int, n: Node, k: nat)
    requires k <= BLOCKS
    requires forall j :: 0 <= j < k && On(x, Receiving, a, j) ==> !AtSide(x, j, n)
    ensures ArrivedSum(x, a, got, fi, n, k) == 0.0
  {
    hide On, AtSide, Offset, Entry;
    if k > 0 { NothingArrives(x, a, got, fi, n, k - 1); }
  }

  /** A node that no neighbour shares keeps its value. */
  lemma UnsharedIsUnchanged(x: Exchange, w: World, sent: Place -> seq<real>, got: Place -> seq<real>, after: World,
                            a: Place, fi: nat, n: Node)
    requires Thick(x.box) && WorldSized(x, w) && Exchanged(x, w, sent, got, after)
    requires InGrid(x.tp, a) && fi < x.fields && Inside(x.box, n)
    requires forall b :: InGrid(x.tp, b) && b != a ==> !Inside(x.box, Local(x.box, b, Global(x.box, a, n)))
    ensures Sized(x, w(a)) && Sized(x, after(a)) && 0 <= Index(x.box, n) < BoxSize(x.box)
    ensures after(a)[fi][Index(x.box, n)] == w(a)[fi][Index(x.box, n)]
  {
    hide Exchanged, Index, BoxSize, Global, Local, WorldSized, BlockAt, BlockOf, ArrivedSum;
    AfterIsSum(x, w, sent, got, after, a, fi, n);
    forall k | 0 <= k < BLOCKS && On(x, Receiving, a, k) ensures !AtSide(x, k, n) {
      BlocksCoverNeighbours(k);
      PresentIsInGrid(x.tp, a, DirAt(k));
      NeighbourHolds(x.box, a, DirAt(k), n);
    }
    NothingArrives(x, a, got(a), fi, n, BLOCKS);
  }
}
