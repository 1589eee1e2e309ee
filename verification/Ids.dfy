/** Client ids (log-server/web_socket_server.cpp:91-104). */
module Ids {
  const INT_MAX: int := 0x7FFF_FFFF

  /** The least id from `from` on that no client has. */
  function FirstFree(taken: set<int>, from: int): (id: int)
    ensures from <= id && id !in taken
    ensures forall k | from <= k < id :: k in taken
    decreases taken
  {
    if from !in taken then from else FirstFree(taken - {from}, from + 1)
  }

  /** With every id at most the counter, one probe or two find a free id. */
  lemma TwoProbes(taken: set<int>, counter: int)
    requires forall k | k in taken :: k <= counter
    ensures FirstFree(taken, counter) == if counter in taken then counter + 1 else counter
  {
    hide FirstFree;
    var id := FirstFree(taken, counter);
    if id > counter {
      assert counter in taken;
      assert id > counter + 1 ==> counter + 1 in taken;
    }
  }

  class IdSource<Client> {
    var clients: map<int, Client>
    var idCounter: int

    /**
     `GenerateID`. The sum `id_counter + i` is an `int`, so the caller owes a free id that an `int` can
     hold. The answer is the least free id from the counter on, or -1 when it is too far away to be probed.
     */
    method GenerateID() returns (id: int)
      requires 0 <= idCounter && FirstFree(clients.Keys, idCounter) <= INT_MAX
      modifies this`idCounter
      ensures var free := FirstFree(old(clients.Keys), old(idCounter));
        && id == (if free - old(idCounter) < INT_MAX then free else -1)
        && idCounter == if id == -1 then old(idCounter) else id
    {
      hide FirstFree;
      var i := 0;
      while i < INT_MAX
        invariant 0 <= i <= INT_MAX && i <= FirstFree(clients.Keys, idCounter) - idCounter
        invariant idCounter == old(idCounter)
      {
        if idCounter + i !in clients {
          idCounter := idCounter + i;
          return idCounter;
        }
        i := i + 1;
      }
      return -1;
    }
  }
}
