/**
  * `commit` on arbitrary graphs of nodes: whatever the nodes are and however they refer to each other, what can be reached
  * from the root reads from the database alone as it read before.
  */
module TrieCommit {
  import opened Prelude
  import opened Rlp
  import opened TrieNode
  import opened TrieStore

  predicate Readable(node: Node) {
    DecodeNode(EncodeNode(node)) == Ok(node)
  }

  /** Cached nodes refer to stored nodes, database nodes to database nodes, and both agree on shared hashes. */
  ghost predicate Coherent(m: Store) {
    && (forall h | h in m.cache :: Proper(h) && Readable(m.cache[h]) && RefsIn(m, m.cache[h]))
    && (forall b | b in m.db :: DecodeNode(m.db[b]).Ok?)
    && (forall b | b in m.db :: RefsIn(Store(map[], m.db), DecodeNode(m.db[b]).value) && ProperRefs(DecodeNode(m.db[b]).value))
    && (forall h | h in m.cache :: ProperRefs(m.cache[h]))
    && (forall h | h in m.cache && HashBytes(h) in m.db :: DecodeNode(m.db[HashBytes(h)]) == Ok(m.cache[h]))
  }

  predicate ProperRefs(node: Node) {
    forall h | h in Refs(node) :: Proper(h)
  }

  /** Each hash refers to the next when resolved in `m`. */
  ghost predicate Walk(m: Store, s: seq<NodeHash>) {
    && s != []
    && (forall i | 0 <= i < |s| :: Resolve(m, s[i]).Ok? && Resolve(m, s[i]).value.Some?)
    && forall i | 0 < i < |s| :: s[i] in Refs(Resolve(m, s[i - 1]).value.value)
  }

  /** The database knows the hash already, or the commit moved it there. */
  predicate Kept(m: Store, moved: set<NodeHash>, h: NodeHash) {
    Proper(h) && (h in moved || HashBytes(h) in m.db)
  }

  lemma KeptReads(m: Store, m': Store, moved: set<NodeHash>, h: NodeHash)
    requires Coherent(m) && Committed(m, m', moved) && Kept(m, moved, h)
    ensures FromDb(m'.db, h) == Resolve(m, h)
  {
    hide EncodeNode, DecodeNode, RefsIn, ProperRefs;
    HashFromItsBytes(h);
  }

  lemma KeptStep(m: Store, m': Store, moved: set<NodeHash>, h: NodeHash, r: NodeHash)
    requires Coherent(m) && Committed(m, m', moved) && Kept(m, moved, h)
    requires Resolve(m, h).Ok? && Resolve(m, h).value.Some? && r in Refs(Resolve(m, h).value.value)
    ensures Kept(m, moved, r)
  {
    hide EncodeNode, DecodeNode, Refs, Readable;
    if h in moved {
      assert ProperRefs(m.cache[h]) && RefsIn(m, m.cache[h]);
      assert Resolvable(m, r);
    } else {
      var b := HashBytes(h);
      assert ProperRefs(DecodeNode(m.db[b]).value);
      assert Resolvable(Store(map[], m.db), r);
    }
  }

  /** Main law: along every walk from the committed root, shared or cyclic, each hash resolves as before. */
  lemma {:induction false} WalkSurvives(m: Store, m': Store, moved: set<NodeHash>, s: seq<NodeHash>)
    requires Coherent(m) && Committed(m, m', moved) && Walk(m, s)
    requires s[0] !in m'.cache && Proper(s[0])
    ensures forall i | 0 <= i < |s| :: Kept(m, moved, s[i]) && FromDb(m'.db, s[i]) == Resolve(m, s[i])
  {
    hide EncodeNode, DecodeNode, Refs, Coherent;
    if |s| == 1 {
      assert Resolvable(m, s[0]);
      KeptReads(m, m', moved, s[0]);
    } else {
      var k := |s| - 1;
      var p := s[..k];
      assert Walk(m, p);
      WalkSurvives(m, m', moved, p);
      assert p[k - 1] == s[k - 1];
      KeptStep(m, m', moved, s[k - 1], s[k]);
      KeptReads(m, m', moved, s[k]);
      forall i | 0 <= i < |s|
        ensures Kept(m, moved, s[i]) && FromDb(m'.db, s[i]) == Resolve(m, s[i])
      {
        assert i < k ==> p[i] == s[i];
      }
    }
  }

  /** Entries of earlier commits read the same, so earlier roots do. */
  lemma OldEntriesUnchanged(m: Store, m': Store, moved: set<NodeHash>, h: NodeHash)
    requires Coherent(m) && Committed(m, m', moved) && Proper(h) && HashBytes(h) in m.db
    ensures FromDb(m'.db, h) == FromDb(m.db, h)
  {
    hide EncodeNode, DecodeNode, RefsIn, ProperRefs;
    HashFromItsBytes(h);
    KeptReads(m, m', moved, h);
  }
}
