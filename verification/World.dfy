/** The chunk cache of one dimension (world.rs): chunks generated on demand, edited, and
    pruned when nobody is near. */
module World {
  import opened Blocks
  import opened Chunks
  import Heights

  /** generate is deterministic: the same seed and chunk position give the same chunk, which
      has blocks in its own columns only. */
  ghost predicate WellGenerated(generate: ChunkPosition -> Generation) {
    forall c :: generate(c).Valid() && generate(c).Within(c)
  }

  /** Every chunk's columns are those its dimension and seed give. */
  ghost predicate GeneratesFrom(generate: ChunkPosition -> Generation, s: Heights.Seeded, dimension: DimensionKind) {
    && WellGenerated(generate)
    && forall c :: generate(c).HasColumns(Heights.GeneratedColumns(s, dimension, c))
  }

  function GeneratedAt(generate: ChunkPosition -> Generation, p: BlockPosition): BlockKind
    requires WellGenerated(generate)
  {
    generate(ChunkOf(p)).BlockAt(p)
  }

  /** A chunk's edits against the last values written: every edit is the last write there,
      and a write without an edit wrote what was generated. */
  ghost predicate Consistent(generate: ChunkPosition -> Generation, position: ChunkPosition,
                             edits: map<BlockPosition, BlockKind>, written: map<BlockPosition, BlockKind>)
    requires WellGenerated(generate)
  {
    && (forall p :: p in edits ==> ChunkOf(p) == position && p in written && edits[p] == written[p])
    && (forall p :: p in written && ChunkOf(p) == position && p !in edits ==> written[p] == GeneratedAt(generate, p))
  }

  lemma WriteKeepsConsistent(generate: ChunkPosition -> Generation, position: ChunkPosition,
                             edits: map<BlockPosition, BlockKind>, written: map<BlockPosition, BlockKind>,
                             p: BlockPosition, kind: BlockKind)
    requires WellGenerated(generate) && Consistent(generate, position, edits, written)
    ensures ChunkOf(p) == position ==> Consistent(generate, position, edits[p := kind], written[p := kind])
    ensures ChunkOf(p) != position || (if p in edits then edits[p] else GeneratedAt(generate, p)) == kind ==>
      Consistent(generate, position, edits, written[p := kind])
  {
    hide GeneratedAt, ChunkOf;
  }

  function Distance(a: int, b: int): nat { if a <= b then b - a else a - b }

  class PrototypeWorld {
    const generate: ChunkPosition -> Generation
    var chunks: map<ChunkPosition, GeneratedChunk>
    ghost var written: map<BlockPosition, BlockKind>  // the last value written at each position

    // A loaded chunk shows the last value written, or else what was generated.
    ghost predicate Shows(chunk: GeneratedChunk)
      requires WellGenerated(generate)
      reads this, chunk
    {
      && chunk.Valid()
      && chunk.Generated() == generate(chunk.position)
      && Consistent(generate, chunk.position, chunk.edits, written)
    }

    ghost predicate Valid()
      reads this, chunks.Values
    {
      && WellGenerated(generate)
      && (forall c :: c in chunks ==> chunks[c].position == c && Shows(chunks[c]))
      && (forall p :: p in written && ChunkOf(p) !in chunks ==> written[p] == GeneratedAt(generate, p))
    }

    // What every write so far makes of a position.
    ghost function Expected(p: BlockPosition): BlockKind
      requires WellGenerated(generate)
      reads this`written
    {
      if p in written then written[p] else GeneratedAt(generate, p)
    }

    constructor (generate: ChunkPosition -> Generation, initial: set<ChunkPosition>)
      requires WellGenerated(generate)
      ensures Valid() && this.generate == generate && written == map[] && chunks.Keys == initial
      ensures fresh(chunks.Values)
    {
      this.generate := generate;
      this.chunks, this.written := map[], map[];
      new;
      var rest := initial;
      while rest != {}
        invariant Valid() && written == map[] && fresh(chunks.Values)
        invariant rest <= initial && chunks.Keys == initial - rest
        decreases rest
      {
        var c :| c in rest;
        EnsureChunk(c);
        rest := rest - {c};
      }
    }

    function BlockAt(p: BlockPosition): BlockKind
      requires Valid()
      reads this, chunks.Values
    {
      if ChunkOf(p) in chunks then chunks[ChunkOf(p)].BlockAt(p) else Air
    }

    /** Reading a loaded chunk gives the last write, or else the generated block. */
    lemma LoadedShowsExpected(p: BlockPosition)
      requires Valid()
      ensures BlockAt(p) == if ChunkOf(p) in chunks then Expected(p) else Air
    {
    }

    /** A loaded chunk holds only blocks of its own columns, whatever was written. */
    lemma LoadedIsOwned(c: ChunkPosition)
      requires Valid() && c in chunks
      ensures chunks[c].Valid() && chunks[c].Owned()
    {
      hide GeneratedAt, ChunkOf;
      var chunk := chunks[c];
      assert Shows(chunk) && chunk.Generated() == generate(c) && generate(c).Within(c);
    }

    lemma UnloadedIsConsistent(c: ChunkPosition)
      requires Valid() && c !in chunks
      ensures Consistent(generate, c, map[], written)
    {
      hide GeneratedAt, ChunkOf;
    }

    // Loads a chunk, generating it the first time.
    method EnsureChunk(c: ChunkPosition)
      requires Valid()
      modifies this`chunks
      ensures Valid() && c in chunks && chunks.Keys == old(chunks.Keys) + {c}
      ensures forall d :: d in old(chunks) ==> chunks[d] == old(chunks[d])
      ensures fresh(chunks.Values - old(chunks.Values))
      ensures c !in old(chunks) ==> chunks[c].edits == map[]
      ensures forall q :: IsEdit(q) <==> old(IsEdit(q))
    {
      hide GeneratedAt, Consistent, Generation.Within, GeneratedChunk.Owned, ChunkOf;
      if c !in chunks {
        UnloadedIsConsistent(c);
        var chunk := new GeneratedChunk.Generate(c, generate(c));
        chunks := chunks[c := chunk];
      }
    }

    lemma EditOrGenerated(p: BlockPosition)
      requires Valid() && ChunkOf(p) in chunks
      ensures var chunk := chunks[ChunkOf(p)];
        chunk.Valid() && chunk.BlockAt(p) == if p in chunk.edits then chunk.edits[p] else GeneratedAt(generate, p)
    {
      hide Consistent;
      assert Shows(chunks[ChunkOf(p)]);
    }

    // The write itself, once the chunk is loaded.
    method WriteLoaded(chunk: GeneratedChunk, p: BlockPosition, kind: BlockKind, edit: bool)
      requires Valid() && ChunkOf(p) in chunks && chunks[ChunkOf(p)] == chunk
      requires !edit ==> chunk.BlockAt(p) == kind
      modifies this`written, chunk`edits, chunk`revision
      ensures Valid() && written == old(written)[p := kind]
      ensures chunk.edits == if edit then old(chunk.edits)[p := kind] else old(chunk.edits)
      ensures chunk.revision == old(chunk.revision) + (if edit then 1 else 0)
      ensures forall q :: IsEdit(q) <==> old(IsEdit(q)) || (edit && q == p)
    {
      hide GeneratedAt, Consistent, GeneratedChunk.BlockAt, GeneratedChunk.Valid, GeneratedChunk.Generated,
           Generation.BlockAt, ChunkOf;
      EditOrGenerated(p);
      written := written[p := kind];
      if edit {
        chunk.edits := chunk.edits[p := kind];
        chunk.revision := chunk.revision + 1;
      }
      forall c | c in chunks ensures Shows(chunks[c]) {
        assert old(Shows(chunks[c]));
        WriteKeepsConsistent(generate, c, old(chunks[c].edits), old(written), p, kind);
      }
    }

    method SetBlock(p: BlockPosition, kind: BlockKind) returns (changed: bool)
      requires Valid()
      modifies this`chunks, this`written, chunks.Values
      ensures Valid() && chunks.Keys == old(chunks.Keys) + {ChunkOf(p)}
      ensures forall d :: d in old(chunks) ==> chunks[d] == old(chunks[d])
      ensures fresh(chunks.Values - old(chunks.Values))
      ensures written == old(written)[p := kind]
      ensures changed <==> old(Expected(p)) != kind
      // A changed position becomes an edit, and every edit stays one.
      ensures forall q :: IsEdit(q) <==> old(IsEdit(q)) || (changed && q == p)
    {
      EnsureChunk(ChunkOf(p));
      LoadedShowsExpected(p);
      hide GeneratedAt, Consistent, GeneratedChunk.BlockAt, IsEdit, Generation.Within;
      var chunk := chunks[ChunkOf(p)];
      changed := chunk.BlockAt(p) != kind;
      WriteLoaded(chunk, p, kind, changed);
    }

    method ApplyEdit(p: BlockPosition, kind: BlockKind)
      requires Valid()
      modifies this`chunks, this`written, chunks.Values
      ensures Valid() && chunks.Keys == old(chunks.Keys) + {ChunkOf(p)}
      ensures forall d :: d in old(chunks) ==> chunks[d] == old(chunks[d])
      ensures fresh(chunks.Values - old(chunks.Values))
      ensures written == old(written)[p := kind]
      // The position is an edit now, and every edit stays one.
      ensures forall q :: IsEdit(q) <==> old(IsEdit(q)) || q == p
    {
      hide GeneratedAt, Consistent, IsEdit, Generation.Within;
      EnsureChunk(ChunkOf(p));
      WriteLoaded(chunks[ChunkOf(p)], p, kind, true);
    }

    // Whether pruning keeps a chunk: it has edits, or a player or mob is near.
    predicate Retained(chunk: GeneratedChunk, c: ChunkPosition, players: seq<BlockPosition>,
                       mobs: seq<ChunkPosition>)
      reads chunk`edits
    {
      || chunk.edits != map[]
      || (exists player <- players ::
            Distance(player.x / CHUNK_WIDTH, c.x) <= 12 && Distance(player.z / CHUNK_WIDTH, c.z) <= 12)
      || (exists mob <- mobs :: Distance(mob.x, c.x) <= 2 && Distance(mob.z, c.z) <= 2)
    }

    // A player stands in the 25 by 25 chunks around it.
    predicate NearPlayer(c: ChunkPosition, players: seq<BlockPosition>) {
      exists player <- players ::
        16 * c.x - 192 <= player.x < 16 * c.x + 208 && 16 * c.z - 192 <= player.z < 16 * c.z + 208
    }

    // A mob is in the 5 by 5 chunks around it.
    predicate NearMob(c: ChunkPosition, mobs: seq<ChunkPosition>) {
      exists mob <- mobs :: c.x - 2 <= mob.x <= c.x + 2 && c.z - 2 <= mob.z <= c.z + 2
    }

    lemma RetainedWhenNear(chunk: GeneratedChunk, c: ChunkPosition, players: seq<BlockPosition>,
                           mobs: seq<ChunkPosition>)
      ensures Retained(chunk, c, players, mobs) <==>
        chunk.edits != map[] || NearPlayer(c, players) || NearMob(c, mobs)
    {
      forall player | player in players
        ensures (Distance(player.x / CHUNK_WIDTH, c.x) <= 12 && Distance(player.z / CHUNK_WIDTH, c.z) <= 12)
          <==> (16 * c.x - 192 <= player.x < 16 * c.x + 208 && 16 * c.z - 192 <= player.z < 16 * c.z + 208)
      {
      }
    }

    lemma PrunedHasNoEdits(chunk: GeneratedChunk, c: ChunkPosition, players: seq<BlockPosition>,
                           mobs: seq<ChunkPosition>)
      requires !Retained(chunk, c, players, mobs)
      ensures chunk.edits == map[]
    {
    }

    lemma UneditedIsGenerated(p: BlockPosition)
      requires Valid() && p in written && ChunkOf(p) in chunks && p !in chunks[ChunkOf(p)].edits
      ensures written[p] == GeneratedAt(generate, p)
    {
      hide GeneratedAt;
      assert Shows(chunks[ChunkOf(p)]);
    }

    /** Pruning drops only chunks nobody edited and nobody is near; no edit is lost. */
    method PruneChunkCache(players: seq<BlockPosition>, mobs: seq<ChunkPosition>)
      requires Valid()
      modifies this`chunks
      ensures Valid()
      ensures forall c :: c in chunks <==>
        c in old(chunks) && (old(chunks[c].edits) != map[] || NearPlayer(c, players) || NearMob(c, mobs))
      ensures forall c :: c in chunks ==> chunks[c] == old(chunks)[c]
      ensures forall p :: IsEdit(p) <==> old(IsEdit(p))
    {
      hide Retained, NearPlayer, NearMob, GeneratedAt, Consistent, ChunkOf;
      forall c | c in chunks
        ensures Retained(chunks[c], c, players, mobs) <==>
          chunks[c].edits != map[] || NearPlayer(c, players) || NearMob(c, mobs)
      {
        RetainedWhenNear(chunks[c], c, players, mobs);
      }
      forall c | c in chunks && !Retained(chunks[c], c, players, mobs) ensures chunks[c].edits == map[] {
        PrunedHasNoEdits(chunks[c], c, players, mobs);
      }
      forall p | p in written && ChunkOf(p) in chunks && !Retained(chunks[ChunkOf(p)], ChunkOf(p), players, mobs)
        ensures written[p] == GeneratedAt(generate, p)
      {
        UneditedIsGenerated(p);
      }
      chunks := map c | c in chunks && Retained(chunks[c], c, players, mobs) :: chunks[c];
    }

    // ----- Saving and restoring the edits

    predicate IsEdit(p: BlockPosition)
      reads this`chunks, chunks.Values
    {
      ChunkOf(p) in chunks && p in chunks[ChunkOf(p)].edits
    }

    // Exactly the edits of the loaded chunks.
    ghost predicate AreEdits(edits: map<BlockPosition, BlockKind>)
      reads this`chunks, chunks.Values
    {
      && (forall p :: p in edits <==> IsEdit(p))
      && (forall p :: IsEdit(p) ==> p in edits && edits[p] == chunks[ChunkOf(p)].edits[p])
    }

    method Edits() returns (edits: map<BlockPosition, BlockKind>)
      requires Valid()
      ensures AreEdits(edits)
    {
      edits := map[];
      var rest := chunks.Keys;
      while rest != {}
        invariant rest <= chunks.Keys
        invariant forall p :: p in edits <==> ChunkOf(p) !in rest && IsEdit(p)
        invariant forall p :: p in edits && IsEdit(p) ==> edits[p] == chunks[ChunkOf(p)].edits[p]
        decreases rest
      {
        var c :| c in rest;
        assert Shows(chunks[c]);
        edits := edits + chunks[c].edits;
        rest := rest - {c};
      }
    }
  }

  // The edits but for the rest are written.
  ghost predicate Replayed(edits: map<BlockPosition, BlockKind>, rest: set<BlockPosition>,
                           written: map<BlockPosition, BlockKind>) {
    written == map p | p in edits && p !in rest :: edits[p]
  }

  lemma NothingReplayed(edits: map<BlockPosition, BlockKind>)
    ensures Replayed(edits, edits.Keys, map[])
  {
  }

  lemma OneMoreReplayed(edits: map<BlockPosition, BlockKind>, rest: set<BlockPosition>,
                        written: map<BlockPosition, BlockKind>, p: BlockPosition)
    requires Replayed(edits, rest, written) && p in rest && p in edits
    ensures Replayed(edits, rest - {p}, written[p := edits[p]])
  {
  }

  lemma AllReplayed(edits: map<BlockPosition, BlockKind>, written: map<BlockPosition, BlockKind>)
    requires Replayed(edits, {}, written)
    ensures written == edits
  {
  }

  /** Loading a save: a fresh world of the same seed with every saved edit applied. */
  method Restore(generate: ChunkPosition -> Generation, initial: set<ChunkPosition>,
                 edits: map<BlockPosition, BlockKind>)
    returns (world: PrototypeWorld)
    requires WellGenerated(generate)
    ensures fresh(world) && world.Valid() && world.generate == generate && world.written == edits
    ensures forall p <- edits :: world.IsEdit(p)
  {
    hide *;
    world := new PrototypeWorld(generate, initial);
    var rest := edits.Keys;
    NothingReplayed(edits);
    while rest != {}
      invariant fresh(world) && fresh(world.chunks.Values) && world.Valid() && world.generate == generate
      invariant rest <= edits.Keys && Replayed(edits, rest, world.written)
      invariant forall p <- edits :: p !in rest ==> world.IsEdit(p)
      decreases rest
    {
      var p :| p in rest;
      OneMoreReplayed(edits, rest, world.written, p);
      world.ApplyEdit(p, edits[p]);
      rest := rest - {p};
    }
    AllReplayed(edits, world.written);
  }

  /** Restoring a world's edits into a fresh world of the same seed: what every position should
      show is what it should show in the saved world, so what both have loaded looks the same. */
  lemma RestoreShowsTheSame(saved: PrototypeWorld, restored: PrototypeWorld,
                            edits: map<BlockPosition, BlockKind>, p: BlockPosition)
    requires saved.Valid() && restored.Valid() && saved.generate == restored.generate
    requires saved.AreEdits(edits) && restored.written == edits
    ensures saved.Expected(p) == restored.Expected(p)
    ensures ChunkOf(p) in saved.chunks && ChunkOf(p) in restored.chunks ==> saved.BlockAt(p) == restored.BlockAt(p)
  {
    hide GeneratedAt, ChunkOf;
    if ChunkOf(p) in saved.chunks {
      assert saved.Shows(saved.chunks[ChunkOf(p)]);
      if ChunkOf(p) in restored.chunks {
        saved.LoadedShowsExpected(p);
        restored.LoadedShowsExpected(p);
      }
    }
  }
}
