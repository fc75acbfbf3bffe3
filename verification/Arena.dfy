// The mark/release arena.  Memory is given out from the newest block; a release
// frees the blocks made since the mark and cuts the chain below the one it keeps.
module Arena {
  import opened Options

  const ALIGNMENT: nat := 16
  const SIZE_MAX: nat := 0xffff_ffff_ffff_ffff
  const BLOCK_SIZE: nat := 65536
  const BLOCK_RECORD: nat := 32

  // A block and how far it is used.  The id stands for its address; blocks made
  // later have larger ids.
  datatype Block = Block(id: nat, used: nat, capacity: nat)

  datatype Piece = Piece(block: nat, offset: nat, size: nat)

  datatype Mark = Mark(block: Option<nat>, used: nat, total: nat)

  // A mark that has not been released: how many pieces were out, and how many
  // blocks had been made.
  datatype Outstanding = Outstanding(mark: Mark, live: nat, blocks: nat)

  // The arena, newest block first, with what it has given out and freed so far.
  datatype State = State(chain: seq<Block>, total: nat, limit: nat, made: nat, pieces: seq<Piece>, freed: set<nat>,
                         marks: seq<Outstanding>)

  function Rounded(size: nat): (r: nat)
    ensures size <= r < size + ALIGNMENT && r % ALIGNMENT == 0
  {
    (size + ALIGNMENT - 1) / ALIGNMENT * ALIGNMENT
  }

  function AlignSize(size: nat): Option<nat> {
    if size > SIZE_MAX - (ALIGNMENT - 1) then None else Some(Rounded(size))
  }

  // A request for nothing is one for a byte.
  function AtLeastOne(size: nat): nat { if size == 0 then 1 else size }

  // A block is as large as asked for, and if that is less than the usual size,
  // of that size or of what is left.
  function NewCapacity(bytes: nat, remaining: nat): (r: nat)
    ensures bytes <= remaining ==> bytes <= r <= remaining && (r < BLOCK_SIZE ==> r == remaining) && (r > BLOCK_SIZE ==> r == bytes)
  {
    var wanted := if bytes > BLOCK_SIZE then bytes else BLOCK_SIZE;
    if wanted > remaining then remaining else wanted
  }

  function Sum(pieces: seq<Piece>): nat {
    if pieces == [] then 0 else Sum(pieces[..|pieces| - 1]) + pieces[|pieces| - 1].size
  }

  ghost predicate Apart(p: Piece, q: Piece) {
    p.block == q.block ==> p.offset + p.size <= q.offset || q.offset + q.size <= p.offset
  }

  // Pieces are aligned and share no byte.
  ghost predicate Separate(pieces: seq<Piece>) {
    && (forall i :: 0 <= i < |pieces| ==> pieces[i].offset % ALIGNMENT == 0 && pieces[i].size % ALIGNMENT == 0 && pieces[i].size > 0)
    && (forall i, j :: 0 <= i < j < |pieces| ==> Apart(pieces[i], pieces[j]))
  }

  ghost predicate ChainOk(chain: seq<Block>, made: nat) {
    && (forall i :: 0 <= i < |chain| ==> chain[i].used <= chain[i].capacity && chain[i].used % ALIGNMENT == 0 && chain[i].id < made)
    && (forall i, j :: 0 <= i < j < |chain| ==> chain[j].id < chain[i].id)
  }

  // The pieces of a chained block lie where it is used.
  ghost predicate Below(chain: seq<Block>, pieces: seq<Piece>) {
    forall i, k :: 0 <= i < |chain| && 0 <= k < |pieces| && pieces[k].block == chain[i].id ==>
      pieces[k].offset + pieces[k].size <= chain[i].used
  }

  ghost predicate Chained(chain: seq<Block>, id: nat) { exists i :: 0 <= i < |chain| && chain[i].id == id }

  // A mark still describes the pieces that were out when it was made: none of
  // them lies in a block made since, and an older block is chained only at or
  // below the marked one.
  ghost predicate MarkOk(o: Outstanding, chain: seq<Block>, pieces: seq<Piece>, made: nat) {
    && o.live <= |pieces| && o.blocks <= made && o.mark.total == Sum(pieces[..o.live]) && o.mark.used % ALIGNMENT == 0
    && (o.mark.block.Some? ==> o.mark.block.value < o.blocks)
    && (forall k :: 0 <= k < o.live ==>
          pieces[k].block < o.blocks
          && (o.mark.block == Some(pieces[k].block) ==> pieces[k].offset + pieces[k].size <= o.mark.used))
    && (forall i :: 0 <= i < |chain| && chain[i].id < o.blocks ==>
          o.mark.block.Some? && chain[i].id <= o.mark.block.value && Chained(chain, o.mark.block.value))
    && (forall i :: 0 <= i < |chain| && Some(chain[i].id) == o.mark.block ==> o.mark.used <= chain[i].used)
  }

  // A later mark is in the same block or in one made since.
  ghost predicate Nested(m: Outstanding, n: Outstanding) {
    && m.live <= n.live && m.blocks <= n.blocks
    && (n.mark.block.Some? && n.mark.block != m.mark.block ==> n.mark.block.value >= m.blocks)
    && (n.mark.block.Some? && n.mark.block == m.mark.block ==> m.mark.used <= n.mark.used)
  }

  // Conservation and separation: the total is what the pieces amount to, within
  // the limit, and no piece lies in a freed block or on another piece.
  ghost predicate Ok(s: State) {
    && ChainOk(s.chain, s.made) && Separate(s.pieces) && Below(s.chain, s.pieces)
    && s.total == Sum(s.pieces) <= s.limit <= SIZE_MAX
    && (forall k :: 0 <= k < |s.pieces| ==> s.pieces[k].block < s.made && s.pieces[k].block !in s.freed)
    && (forall i :: 0 <= i < |s.chain| ==> s.chain[i].id !in s.freed)
    && (forall id :: id in s.freed ==> id < s.made)
    && (forall m :: 0 <= m < |s.marks| ==> MarkOk(s.marks[m], s.chain, s.pieces, s.made))
    && (forall m, n :: 0 <= m < n < |s.marks| ==> Nested(s.marks[m], s.marks[n]))
  }

  function WithBlock(s: State, capacity: nat): State {
    s.(chain := [Block(s.made, 0, capacity)] + s.chain, made := s.made + 1)
  }

  function WithPiece(s: State, bytes: nat): State
    requires s.chain != []
  {
    var head := s.chain[0];
    s.(chain := [head.(used := head.used + bytes)] + s.chain[1..], total := s.total + bytes,
       pieces := s.pieces + [Piece(head.id, head.used, bytes)])
  }

  function MarkOf(s: State): Mark {
    if s.chain == [] then Mark(None, 0, s.total) else Mark(Some(s.chain[0].id), s.chain[0].used, s.total)
  }

  function WithMark(s: State): State { s.(marks := s.marks + [Outstanding(MarkOf(s), |s.pieces|, s.made)]) }

  // The chain from the marked block on, if it is there.
  function Walk(chain: seq<Block>, mark: Mark, i: nat): (r: nat)
    requires i <= |chain|
    ensures i <= r <= |chain|
    ensures forall k :: i <= k < r ==> Some(chain[k].id) != mark.block
    ensures r < |chain| ==> Some(chain[r].id) == mark.block
    decreases |chain| - i
  {
    if i == |chain| || Some(chain[i].id) == mark.block then i else Walk(chain, mark, i + 1)
  }

  function Released(s: State): State
    requires s.marks != [] && s.marks[|s.marks| - 1].live <= |s.pieces|
  {
    var o := s.marks[|s.marks| - 1];
    var i := Walk(s.chain, o.mark, 0);
    s.(chain := if i < |s.chain| then [s.chain[i].(used := o.mark.used)] else [],
       total := o.mark.total,
       pieces := s.pieces[..o.live],
       freed := s.freed + (set k | 0 <= k < i :: s.chain[k].id),
       marks := s.marks[..|s.marks| - 1])
  }

  // A new block is empty and newer than every mark.
  lemma {:induction false} BlockMade(s: State, capacity: nat)
    requires Ok(s)
    ensures Ok(WithBlock(s, capacity))
  {
    hide Sum, Separate, Nested;
    var t := WithBlock(s, capacity);
    forall m | 0 <= m < |t.marks| ensures MarkOk(t.marks[m], t.chain, t.pieces, t.made) {
      MarkSurvivesBlock(s.marks[m], s.chain, s.pieces, s.made, capacity);
    }
  }

  lemma {:induction false} MarkSurvivesBlock(o: Outstanding, chain: seq<Block>, pieces: seq<Piece>, made: nat, capacity: nat)
    requires MarkOk(o, chain, pieces, made)
    ensures MarkOk(o, [Block(made, 0, capacity)] + chain, pieces, made + 1)
  {
    hide Sum;
    var more := [Block(made, 0, capacity)] + chain;
    forall i | 0 <= i < |more| && more[i].id < o.blocks
      ensures o.mark.block.Some? && more[i].id <= o.mark.block.value && Chained(more, o.mark.block.value)
    {
      assert more[i] == chain[i - 1];
      var j :| 0 <= j < |chain| && chain[j].id == o.mark.block.value;
      assert more[j + 1] == chain[j];
    }
  }

  lemma {:induction false} SumMore(pieces: seq<Piece>, p: Piece)
    ensures Sum(pieces + [p]) == Sum(pieces) + p.size
  {
    assert (pieces + [p])[..|pieces|] == pieces;
  }

  // A piece from the end of the newest block touches no other.
  lemma {:induction false} PieceGiven(s: State, bytes: nat)
    requires Ok(s) && s.chain != [] && s.chain[0].used + bytes <= s.chain[0].capacity && bytes % ALIGNMENT == 0 && bytes > 0
    requires s.total + bytes <= s.limit
    ensures Ok(WithPiece(s, bytes))
  {
    hide Sum, Nested, MarkOk;
    var t, p := WithPiece(s, bytes), Piece(s.chain[0].id, s.chain[0].used, bytes);
    SumMore(s.pieces, p);
    forall i, j | 0 <= i < j < |t.pieces| ensures Apart(t.pieces[i], t.pieces[j]) {
      if j < |s.pieces| { assert Apart(s.pieces[i], s.pieces[j]); }
    }
    forall m | 0 <= m < |t.marks| ensures MarkOk(t.marks[m], t.chain, t.pieces, t.made) {
      assert MarkOk(s.marks[m], s.chain, s.pieces, s.made);
      MarkSurvivesPiece(s.marks[m], s.chain, s.pieces, s.made, bytes);
    }
  }

  lemma {:induction false} MarkSurvivesPiece(o: Outstanding, chain: seq<Block>, pieces: seq<Piece>, made: nat, bytes: nat)
    requires MarkOk(o, chain, pieces, made) && chain != []
    ensures MarkOk(o, [chain[0].(used := chain[0].used + bytes)] + chain[1..], pieces + [Piece(chain[0].id, chain[0].used, bytes)], made)
  {
    hide Sum;
    var more, longer := pieces + [Piece(chain[0].id, chain[0].used, bytes)], [chain[0].(used := chain[0].used + bytes)] + chain[1..];
    assert more[..o.live] == pieces[..o.live];
    forall i | 0 <= i < |longer| && longer[i].id < o.blocks
      ensures o.mark.block.Some? && longer[i].id <= o.mark.block.value && Chained(longer, o.mark.block.value)
    {
      assert longer[i].id == chain[i].id;
      var j :| 0 <= j < |chain| && chain[j].id == o.mark.block.value;
      assert longer[j].id == chain[j].id;
    }
  }

  lemma {:induction false} MarkTaken(s: State)
    requires Ok(s)
    ensures Ok(WithMark(s))
  {
    hide Sum, Separate;
    var o, t := Outstanding(MarkOf(s), |s.pieces|, s.made), WithMark(s);
    assert s.pieces[..|s.pieces|] == s.pieces;
    assert MarkOk(o, s.chain, s.pieces, s.made);
    forall m | 0 <= m < |s.marks| ensures Nested(s.marks[m], o) {
      assert MarkOk(s.marks[m], s.chain, s.pieces, s.made);
    }
  }

  // The blocks a release frees were all made after the mark.
  lemma {:induction false} FreedAreNew(o: Outstanding, chain: seq<Block>, pieces: seq<Piece>, made: nat, k: nat)
    requires ChainOk(chain, made) && MarkOk(o, chain, pieces, made) && k < Walk(chain, o.mark, 0)
    ensures chain[k].id >= o.blocks
  {
    hide Sum;
    if o.mark.block.Some? && Chained(chain, o.mark.block.value) {
      var j :| 0 <= j < |chain| && chain[j].id == o.mark.block.value;
      assert k < j;
    }
  }

  lemma {:induction false} MarkSurvivesRelease(m: Outstanding, o: Outstanding, chain: seq<Block>, pieces: seq<Piece>, made: nat, i: nat)
    requires MarkOk(m, chain, pieces, made) && MarkOk(o, chain, pieces, made) && Nested(m, o) && i == Walk(chain, o.mark, 0)
    ensures MarkOk(m, if i < |chain| then [chain[i].(used := o.mark.used)] else [], pieces[..o.live], made)
  {
    hide Sum;
    assert pieces[..o.live][..m.live] == pieces[..m.live];
    if i < |chain| {
      var cut := [chain[i].(used := o.mark.used)];
      if m.mark.block == o.mark.block { assert cut[0].id == m.mark.block.value; }
    }
  }

  // A release brings back the pieces of its mark, all of them intact.
  lemma {:induction false} ReleasedOk(s: State)
    requires Ok(s) && s.marks != []
    ensures s.marks[|s.marks| - 1].live <= |s.pieces|
    ensures Ok(Released(s))
  {
    hide Sum, Nested;
    var last := |s.marks| - 1;
    var o := s.marks[last];
    assert MarkOk(o, s.chain, s.pieces, s.made);
    var i, t := Walk(s.chain, o.mark, 0), Released(s);
    SumBounded(s.pieces, o.live);
    forall j, k | 0 <= j < k < |t.pieces| ensures Apart(t.pieces[j], t.pieces[k]) {
      assert Apart(s.pieces[j], s.pieces[k]);
    }
    forall k | 0 <= k < |t.pieces| ensures t.pieces[k].block !in t.freed {
      assert t.pieces[k] == s.pieces[k];
      forall j | 0 <= j < i ensures s.chain[j].id >= o.blocks { FreedAreNew(o, s.chain, s.pieces, s.made, j); }
    }
    forall m | 0 <= m < |t.marks| ensures MarkOk(t.marks[m], t.chain, t.pieces, t.made) {
      assert MarkOk(s.marks[m], s.chain, s.pieces, s.made) && Nested(s.marks[m], s.marks[last]);
      MarkSurvivesRelease(s.marks[m], o, s.chain, s.pieces, s.made, i);
    }
  }

  lemma {:induction false} SumBounded(pieces: seq<Piece>, n: nat)
    requires n <= |pieces|
    ensures Sum(pieces[..n]) <= Sum(pieces)
    decreases |pieces| - n
  {
    if n == |pieces| {
      assert pieces[..n] == pieces;
    } else {
      assert pieces[..n + 1][..n] == pieces[..n];
      SumBounded(pieces, n + 1);
    }
  }

  class Arena {
    var chain: seq<Block>
    var total: nat
    var made: nat
    const limit: nat
    ghost var pieces: seq<Piece>
    ghost var freed: set<nat>
    ghost var marks: seq<Outstanding>

    ghost function Now(): State
      reads this
    {
      State(chain, total, limit, made, pieces, freed, marks)
    }

    ghost predicate Valid()
      reads this
    {
      Ok(Now())
    }

    constructor (limit: nat)
      requires limit <= SIZE_MAX
      ensures Valid() && Now() == State([], 0, limit, 0, [], {}, [])
    {
      this.limit := limit;
      chain, total, made, pieces, freed, marks := [], 0, 0, [], {}, [];
    }

    // A piece is given out at the end of the newest block if it has room there, else
    // at the start of a new one; or nothing changes.
    method Alloc(size: nat) returns (r: Option<Piece>)
      requires Valid() && size <= SIZE_MAX
      modifies this
      ensures Valid() && marks == old(marks) && freed == old(freed)
      ensures r.None? ==> Now() == old(Now())
      ensures r.Some? ==> r.value.size == Rounded(AtLeastOne(size))
                          && pieces == old(pieces) + [r.value] && total == old(total) + r.value.size
      ensures r.Some? ==> r.value.size % ALIGNMENT == 0 && r.value.size > 0 && size <= r.value.size < ALIGNMENT + if size == 0 then 1 else size
      ensures r.Some? ==>
                if old(Fits(Rounded(AtLeastOne(size)))) then r.value.block == old(chain[0].id) && r.value.offset == old(chain[0].used)
                else r.value.block == old(made) && r.value.offset == 0
                     && chain == [Block(old(made), r.value.size, NewCapacity(r.value.size, limit - old(total)))] + old(chain)
      ensures r.Some? <==>
                && AlignSize(AtLeastOne(size)).Some? && old(total) + Rounded(AtLeastOne(size)) <= limit
                && (old(Fits(Rounded(AtLeastOne(size))))
                    || NewCapacity(Rounded(AtLeastOne(size)), limit - old(total)) <= SIZE_MAX - BLOCK_RECORD)
    {
      hide Ok;
      var aligned := AlignSize(AtLeastOne(size));
      if aligned.None? { return None; }
      var bytes := aligned.value;
      InLimit(Now());
      if bytes > SIZE_MAX - total || total + bytes > limit { return None; }
      if !Fits(bytes) {
        var capacity := NewCapacity(bytes, limit - total);
        if capacity > SIZE_MAX - BLOCK_RECORD { return None; }
        BlockMade(Now(), capacity);
        chain := [Block(made, 0, capacity)] + chain;
        made := made + 1;
      }
      var head := chain[0];
      r := Some(Piece(head.id, head.used, bytes));
      PieceGiven(Now(), bytes);
      chain := [head.(used := head.used + bytes)] + chain[1..];
      total := total + bytes;
      pieces := pieces + [r.value];
    }

    // The newest block has room.
    predicate Fits(bytes: nat)
      reads this
    {
      chain != [] && chain[0].used + bytes <= chain[0].capacity
    }

    method TakeMark() returns (mark: Mark)
      requires Valid()
      modifies this`marks
      ensures Valid() && Now() == WithMark(old(Now())) && mark == MarkOf(old(Now()))
    {
      hide Ok;
      mark := MarkOf(State(chain, total, limit, made, [], {}, []));
      MarkTaken(Now());
      marks := marks + [Outstanding(mark, |pieces|, made)];
    }

    // Marks are released in the opposite order.  Every piece that was out at the
    // mark stays as it was, in a block that has not been freed, and no other stays.
    method Release(mark: Mark)
      requires Valid() && marks != [] && marks[|marks| - 1].mark == mark
      modifies this
      ensures old(marks[|marks| - 1]).live <= |old(pieces)|
      ensures Valid() && Now() == Released(old(Now()))
      ensures pieces == old(pieces)[..old(marks[|marks| - 1]).live] && total == Sum(pieces)
    {
      hide Ok;
      ReleasedOk(Now());
      InLimit(Released(Now()));
      var i := 0;
      ghost var was := Now();
      while i < |chain| && Some(chain[i].id) != mark.block
        invariant 0 <= i <= |chain| && Now() == was
        invariant Walk(chain, mark, i) == Walk(chain, mark, 0)
      {
        i := i + 1;
      }
      freed := freed + (set k | 0 <= k < i :: chain[k].id);
      chain := if i < |chain| then [chain[i].(used := mark.used)] else [];
      total := mark.total;
      pieces := pieces[..marks[|marks| - 1].live];
      marks := marks[..|marks| - 1];
    }
  }

  lemma InLimit(s: State)
    requires Ok(s)
    ensures s.total == Sum(s.pieces) <= s.limit <= SIZE_MAX
  {
  }
}
