/** The pending-request map of the request/reply protocol, and its retransmission rounds. */
module IpcProtocol {
  import opened Listing
  import LittleEndian

  type Byte = LittleEndian.Byte

  const MAX_RETRANSMITS: nat := 3
  const SEQ_LIMIT: nat := 0x1_0000

  /** A pending request: whose reply channel it holds, what to resend, how often that happened. */
  datatype Entry = Entry(owner: nat, frame: seq<Byte>, retransmits: nat)

  type Pending = map<nat, Entry>

  /** Entries that a retransmission round keeps. */
  function Kept(pending: Pending): set<nat> {
    set k | k in pending && pending[k].retransmits < MAX_RETRANSMITS
  }

  function Collected(pending: Pending): Pending {
    map k | k in Kept(pending) :: pending[k].(retransmits := pending[k].retransmits + 1)
  }

  ghost predicate FramesOf(frames: seq<seq<Byte>>, keys: seq<nat>, pending: Pending) {
    |frames| == |keys| && forall i | 0 <= i < |keys| :: keys[i] in pending && frames[i] == pending[keys[i]].frame
  }

  ghost predicate OwnersOf(owners: seq<nat>, keys: seq<nat>, pending: Pending) {
    |owners| == |keys| && forall i | 0 <= i < |keys| :: keys[i] in pending && owners[i] == pending[keys[i]].owner
  }

  /** One retransmission round over every pending entry, in map order. */
  method CollectEntries(before: Pending)
    returns (after: Pending, resend: seq<seq<Byte>>, exhausted: seq<nat>, ghost kept: seq<nat>, ghost gone: seq<nat>)
    ensures after == Collected(before)
    ensures Lists(kept, Kept(before)) && FramesOf(resend, kept, before)
    ensures Lists(gone, before.Keys - Kept(before)) && OwnersOf(exhausted, gone, before)
  {
    var todo := before.Keys;
    after, resend, exhausted, kept, gone := before, [], [], [], [];
    while todo != {}
      invariant todo <= before.Keys
      invariant after.Keys == todo + (Kept(before) - todo)
      invariant forall k | k in todo :: after[k] == before[k]
      invariant forall k | k in Kept(before) - todo :: after[k] == Collected(before)[k]
      invariant Lists(kept, Kept(before) - todo) && FramesOf(resend, kept, before)
      invariant Lists(gone, before.Keys - Kept(before) - todo) && OwnersOf(exhausted, gone, before)
    {
      hide Lists;
      var k :| k in todo;
      var entry := after[k];
      ghost var left := todo - {k};
      if entry.retransmits >= MAX_RETRANSMITS {
        after := after - {k};
        exhausted := exhausted + [entry.owner];
        ListsSnoc(gone, before.Keys - Kept(before) - todo, k);
        assert before.Keys - Kept(before) - left == before.Keys - Kept(before) - todo + {k};
        assert Kept(before) - left == Kept(before) - todo;
        gone := gone + [k];
      } else {
        after := after[k := entry.(retransmits := entry.retransmits + 1)];
        resend := resend + [entry.frame];
        ListsSnoc(kept, Kept(before) - todo, k);
        assert Kept(before) - left == Kept(before) - todo + {k};
        assert before.Keys - Kept(before) - left == before.Keys - Kept(before) - todo;
        kept := kept + [k];
      }
      todo := todo - {k};
    }
  }

  // --- Retransmission ends ---------------------------------------------------------------------

  /** One token per retransmission an entry has left, and one for giving up. */
  function Budget(pending: Pending): set<(nat, nat)> {
    set k, j | k in pending && pending[k].retransmits <= j <= MAX_RETRANSMITS :: (k, j)
  }

  /** Every round with something pending strictly shrinks the budget. */
  lemma CollectShrinksBudget(pending: Pending)
    requires pending != map[] && forall k | k in pending :: pending[k].retransmits <= MAX_RETRANSMITS
    ensures Budget(Collected(pending)) < Budget(pending)
  {
    var k :| k in pending;
    var spent := (k, pending[k].retransmits);
    assert spent in Budget(pending) && spent !in Budget(Collected(pending));
  }

  /** Without new requests, four rounds leave nothing pending. */
  lemma FourRoundsEmpty(pending: Pending)
    ensures Collected(Collected(Collected(Collected(pending)))) == map[]
  {
    var one := Collected(pending);
    var two := Collected(one);
    var three := Collected(two);
    assert forall k | k in one :: one[k].retransmits >= 1;
    assert forall k | k in two :: two[k].retransmits >= 2;
    assert forall k | k in three :: three[k].retransmits >= 3;
    assert Kept(three) == {};
  }
}
