/** The first-fit id tables of the QRTR proxy: an array of bytes in which a used id marks its own
    place with its own value, cut to eight bits. */
module IdTable {
  import opened Common

  const CLIENT_IDS := 0xf0
  const PORT_IDS := 0xff0

  // ---------------------------------------------------------------- as functions on the contents

  /** The first free id at or after `from`, or 0 when there is none. */
  function FirstFree(bm: seq<byte>, from: nat): (id: nat)
    requires 1 <= from
    ensures id == 0 || (from <= id < |bm| && bm[id] == 0)
    ensures forall i :: from <= i < |bm| && (id == 0 || i < id) ==> bm[i] != 0
    decreases |bm| - from
  {
    if from >= |bm| then 0 else if bm[from] == 0 then from else FirstFree(bm, from + 1)
  }

  function Taken(bm: seq<byte>, id: nat): seq<byte>
    requires id < |bm|
  {
    if id == 0 then bm else bm[id := id % 256]
  }

  function Freed(bm: seq<byte>, id: nat): seq<byte> {
    if id < |bm| && bm[id] == id then bm[id := 0] else bm
  }

  // ---------------------------------------------------------------- in place

  /** alloc_client_id and alloc_port_id */
  method Alloc(bm: array<byte>) returns (id: nat)
    requires bm.Length > 0
    modifies bm
    ensures id == FirstFree(old(bm[..]), 1) && bm[..] == Taken(old(bm[..]), id)
  {
    id := 1;
    while id < bm.Length
      invariant 1 <= id <= bm.Length && FirstFree(bm[..], 1) == FirstFree(bm[..], id)
      invariant bm[..] == old(bm[..])
    {
      if bm[id] == 0 {
        bm[id] := id % 256;
        return;
      }
      id := id + 1;
    }
    id := 0;
  }

  /** free_client_id and free_port_id */
  method Free(bm: array<byte>, id: nat)
    modifies bm
    ensures bm[..] == Freed(old(bm[..]), id)
  {
    if id < bm.Length && bm[id] == id {
      bm[id] := 0;
    }
  }

  // ---------------------------------------------------------------- what a table says

  /** The table marks exactly the nonzero ids in use, none of which is in use twice. Id 0 stands for
      a failed allocation and may occur any number of times. */
  ghost predicate Marks(bm: seq<byte>, used: multiset<nat>) {
    && |bm| > 0
    && (forall i :: 1 <= i < |bm| ==> used[i] <= 1 && bm[i] == if i in used && i < 256 then i else 0)
    && (forall i :: i in used ==> i < |bm| && i < 256)
  }

  lemma FreshTable(n: nat)
    requires n > 0
    ensures Marks(seq(n, _ => 0 as byte), multiset{})
  {
  }

  /** Allocation keeps the table exact if and only if the id it hands out fits in a byte: the first id
      above 255 is stored as 0 and looks free again. */
  lemma AllocExact(bm: seq<byte>, used: multiset<nat>)
    requires Marks(bm, used)
    ensures var id := FirstFree(bm, 1);
            && (id != 0 ==> id !in used)
            && (Marks(Taken(bm, id), used + multiset{id}) <==> id < 256)
  {
    var id := FirstFree(bm, 1);
    if id >= 256 {
      assert id in used + multiset{id};
    }
  }

  lemma FreeExact(bm: seq<byte>, used: multiset<nat>, id: nat)
    requires Marks(bm, used) && id in used
    ensures Marks(Freed(bm, id), used - multiset{id})
  {
  }

  lemma {:induction false} Crowd(used: multiset<nat>, n: nat)
    requires forall i :: 1 <= i <= n ==> i in used
    ensures |used| >= n
  {
    if n > 0 {
      Crowd(used - multiset{n}, n - 1);
    }
  }

  /** Pigeonhole: as long as fewer ids are in use than a byte and the table can tell apart, first fit
      finds one of those. */
  lemma FreeIdExists(bm: seq<byte>, used: multiset<nat>)
    requires Marks(bm, used) && |used| + 1 < |bm| && |used| < 255
    ensures 0 < FirstFree(bm, 1) < 256
  {
    var id := FirstFree(bm, 1);
    if id == 0 || id >= 256 {
      var n := if |bm| <= 256 then |bm| - 1 else 255;
      forall i | 1 <= i <= n ensures i in used {
        assert bm[i] != 0;
      }
      Crowd(used, n);
    }
  }

  /** And when it finds none below 256, that many ids are in use. */
  lemma FullExactly(bm: seq<byte>, used: multiset<nat>)
    requires Marks(bm, used) && |bm| > 256
    requires used[0] == 0
    ensures FirstFree(bm, 1) < 256 <==> |used| < 255
  {
    if |used| < 255 {
      FreeIdExists(bm, used);
    } else {
      assert bm[256] == 0;
      if FirstFree(bm, 1) < 256 {
        var id := FirstFree(bm, 1);
        Missing(used, 255, id);
      }
    }
  }

  /** A table of at most 256 places has no free id exactly when as many nonzero ids are in use as it has
      places for. */
  lemma NoneFreeExactly(bm: seq<byte>, used: multiset<nat>)
    requires Marks(bm, used) && 1 < |bm| <= 256
    ensures FirstFree(bm, 1) == 0 <==> |used| - used[0] == |bm| - 1
  {
    var nonzero, n := used[0 := 0], |bm| - 1;
    assert |nonzero| == |used| - used[0];
    var id := FirstFree(bm, 1);
    Missing(nonzero, n, id);
    if id == 0 {
      forall i | 1 <= i <= n ensures i in nonzero {
        assert bm[i] != 0;
      }
      Crowd(nonzero, n);
    }
  }

  /** What happens then: id 256 is handed out without being marked, so it is handed out again to the
      next caller, and freeing it changes nothing. */
  lemma IdBeyondByte(bm: seq<byte>)
    requires FirstFree(bm, 1) == 256
    ensures Taken(bm, 256) == bm && FirstFree(Taken(bm, 256), 1) == 256 && Freed(bm, 256) == bm
  {
    assert Taken(bm, 256) == bm;
  }

  /** Distinct numbers from 1 to n of which one is missing are fewer than n. */
  lemma {:induction false} Missing(used: multiset<nat>, n: nat, id: nat)
    requires forall i :: i in used ==> 1 <= i <= n && used[i] == 1
    ensures |used| <= n
    ensures 1 <= id <= n && id !in used ==> |used| < n
  {
    if n == 0 {
      assert forall x :: x !in used;
      assert used == multiset{};
    } else {
      var rest := used - multiset{n};
      Missing(rest, n - 1, id);
      if n !in used {
        assert rest == used;
      }
    }
  }
}
