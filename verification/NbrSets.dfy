/** The grow-only string sets guarded by a lock (peer/impl/nbrSet.go, peer/impl/ConcurrentStringSet.go). */
module NbrSets {
  import opened Basics

  /** What a random choice among the neighbours other than `except` can return. */
  predicate Picked(pick: Option<Addr>, nbrs: set<Addr>, except: Addr)
  {
    match pick
    case None => nbrs <= {except}
    case Some(nbr) => nbr in nbrs && nbr != except
  }

  class NbrSet {
    var nbrs: set<Addr>

    constructor ()
      ensures nbrs == {}
    {
      nbrs := {};
    }

    /** Collects the candidates in any order and picks one; fails exactly when there is none. */
    method SelectARandomNbrExcept(except: Addr) returns (pick: Option<Addr>)
      ensures Picked(pick, nbrs, except)
    {
      var candidates: seq<Addr> := [];
      var todo := nbrs;
      while todo != {}
        invariant todo <= nbrs
        invariant forall x :: x in candidates <==> x in nbrs - todo && x != except
        decreases todo
      {
        var nbr :| nbr in todo;
        if nbr != except {
          candidates := candidates + [nbr];
        }
        todo := todo - {nbr};
      }
      if |candidates| == 0 {
        return None;
      }
      var k :| 0 <= k < |candidates|;
      assert candidates[k] in candidates;
      return Some(candidates[k]);
    }

    method AddNbr(newNbr: Addr)
      modifies this
      ensures nbrs == old(nbrs) + {newNbr}
    {
      nbrs := nbrs + {newNbr};
    }

    method Contains(node: Addr) returns (b: bool)
      ensures b <==> node in nbrs
    {
      b := node in nbrs;
    }

    method GetSize() returns (n: nat)
      ensures n == |nbrs|
    {
      n := |nbrs|;
    }
  }

  class ConcurrentStrSet {
    var strings: set<Bytes>

    constructor ()
      ensures strings == {}
    {
      strings := {};
    }

    method AddStr(newStr: Bytes)
      modifies this
      ensures strings == old(strings) + {newStr}
    {
      strings := strings + {newStr};
    }

    method Contains(str: Bytes) returns (b: bool)
      ensures b <==> str in strings
    {
      b := str in strings;
    }

    /** Every string of the set once, in any order. */
    method GetStrSlice() returns (res: seq<Bytes>)
      ensures Distinct(res)
      ensures forall x :: x in res <==> x in strings
    {
      res := [];
      var todo := strings;
      while todo != {}
        invariant todo <= strings && Distinct(res)
        invariant forall x :: x in res <==> x in strings - todo
        decreases todo
      {
        var str :| str in todo;
        assert str !in res;
        res := res + [str];
        todo := todo - {str};
      }
    }
  }
}
