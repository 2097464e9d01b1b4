/** CIDs, the blocks they name, and the block map that serves as a cache of them. */
module Blocks {
  import opened Collections
  import opened Wrappers

  type Cid = nat
  type Block = seq<nat>

  /** The CIDs of `cids` that a map does not hold, in order. */
  function NotIn<V>(cids: seq<Cid>, m: map<Cid, V>): seq<Cid> {
    if cids == [] then []
    else NotIn(cids[..|cids| - 1], m) + if cids[|cids| - 1] in m then [] else [cids[|cids| - 1]]
  }

  lemma {:induction false} NotInMember<V>(cids: seq<Cid>, m: map<Cid, V>, c: Cid)
    ensures c in NotIn(cids, m) <==> c in cids && c !in m
  {
    if cids != [] {
      assert cids == cids[..|cids| - 1] + [cids[|cids| - 1]];
      NotInMember(cids[..|cids| - 1], m, c);
    }
  }

  /** `BlockMap`; its lock makes each method one step. */
  class BlockMap {
    var blocks: map<Cid, Block>

    constructor ()
      ensures blocks == map[]
    {
      blocks := map[];
    }

    method Set(cid: Cid, bytes: Block)
      modifies this
      ensures blocks == old(blocks)[cid := bytes]
    {
      blocks := blocks[cid := bytes];
    }

    method Get(cid: Cid) returns (r: Option<Block>)
      ensures r == if cid in blocks then Some(blocks[cid]) else None
    {
      r := if cid in blocks then Some(blocks[cid]) else None;
    }

    method Delete(cid: Cid)
      modifies this
      ensures blocks == old(blocks) - {cid}
    {
      blocks := blocks - {cid};
    }

    method DeleteAll(cids: set<Cid>)
      modifies this
      ensures blocks == old(blocks) - cids
    {
      var left := cids;
      while left != {}
        invariant left <= cids && blocks == old(blocks) - (cids - left)
        decreases |left|
      {
        var c := Pick(left);
        Delete(c);
        left := left - {c};
        assert cids - left == (cids - (left + {c})) + {c};
      }
      assert cids - left == cids;
    }

    /** The blocks found, and the CIDs not found in the order asked for. */
    method GetMany(cids: seq<Cid>) returns (found: map<Cid, Block>, missing: seq<Cid>)
      ensures found == map c | c in cids && c in blocks :: blocks[c]
      ensures missing == NotIn(cids, blocks)
    {
      found, missing := map[], [];
      for i := 0 to |cids|
        invariant found == map c | c in cids[..i] && c in blocks :: blocks[c]
        invariant missing == NotIn(cids[..i], blocks)
      {
        var c := cids[i];
        assert cids[..i + 1] == cids[..i] + [c] && cids[..i + 1][..i] == cids[..i];
        if c in blocks {
          found := found[c := blocks[c]];
        } else {
          missing := missing + [c];
        }
      }
      assert cids[..|cids|] == cids;
    }
  }
}
