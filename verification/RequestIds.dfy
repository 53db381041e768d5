/**
 Request identifiers on the control channel (src/control/mod.rs): they count up
 through the non-zero 32-bit values, start over at one, and skip every
 identifier that is still pending.
 */
module RequestIds {
  import opened Bytes

  const MAX_ID: u32 := 0xFFFF_FFFF

  /** The identifier tried after `id`. */
  function Successor(id: u32): (r: u32)
    ensures r != 0
  {
    if id == MAX_ID then 1 else id + 1
  }

  /** How many identifiers are tried from `start` before `id`. */
  function Distance(start: u32, id: u32): nat
    requires start != 0 && id != 0
  {
    if start <= id then id - start else id + MAX_ID - start
  }

  /** Where the search begins: zero is passed over. */
  function FirstTried(next: u32): (r: u32)
    ensures r != 0
  {
    if next == 0 then 1 else next
  }

  /** The first identifier from `start` on that is not pending. */
  function FirstFree<V>(start: u32, pending: map<u32, V>): (r: u32)
    requires start != 0
    ensures r != 0
    decreases |pending|
  {
    if start in pending then FirstFree(Successor(start), pending - {start}) else start
  }

  /**
   While some identifier is free, the one found is, and all those tried before
   it are pending: at most one per pending request.
   */
  lemma {:induction false} FirstFreeIsFirst<V>(start: u32, pending: map<u32, V>)
    requires start != 0 && |pending| < MAX_ID
    ensures FirstFree(start, pending) !in pending
    ensures Distance(start, FirstFree(start, pending)) <= |pending|
    ensures forall id: u32 :: id != 0 && Distance(start, id) < Distance(start, FirstFree(start, pending)) ==>
              id in pending
    decreases |pending|
  {
    if start in pending {
      var rest := pending - {start};
      assert |rest| == |pending| - 1;
      FirstFreeIsFirst(Successor(start), rest);
      var found := FirstFree(Successor(start), rest);
      forall id: u32 | id != 0 && Distance(start, id) < Distance(start, found)
        ensures id in pending
      {
        if id != start {
          assert Distance(Successor(start), id) == Distance(start, id) - 1;
          assert id in rest;
        }
      }
    }
  }

  /** The search reaches a free identifier and leaves the counter behind it. */
  method AllocateId<V>(next: u32, pending: map<u32, V>) returns (id: u32, after: u32)
    requires |pending| < MAX_ID
    ensures id == FirstFree(FirstTried(next), pending) && after == Successor(id)
    ensures id != 0 && id !in pending
  {
    ghost var start, found := FirstTried(next), FirstFree(FirstTried(next), pending);
    FirstFreeIsFirst(start, pending);
    after := next;
    while true
      invariant Distance(start, FirstTried(after)) <= Distance(start, found)
      invariant after == 0 ==> start == 1
      decreases Distance(FirstTried(after), found), if after == 0 then 1 else 0
    {
      id := after;
      after := Successor(after);
      if id != 0 && id !in pending {
        return;
      }
    }
  }
}
