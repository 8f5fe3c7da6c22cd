/** The entities that flow from a request to the access-history table. */
module Domain {
  import opened Common

  datatype AccessResult = Granted | Denied

  /** A lock with the names of the roles that may open it. */
  datatype Lock = Lock(id: string, roles: seq<string>)

  /** One row of the access history; `None` stands for a null reference. */
  datatype Entry = Entry(
    lockId: string,
    date: int,
    result: AccessResult,
    requester: Option<string>,
    employee: Option<string>)

  /** A reply handed to the lock connector, addressed to the lock's topic. */
  datatype Message = Message(topic: string, result: AccessResult)

  /** The database's locks, as a key with its role names. */
  type Locks = map<string, seq<string>>

  function FindLock(locks: Locks, id: string): Option<Lock> {
    if id in locks then Some(Lock(id, locks[id])) else None
  }

  /** The rows of one lock, in table order. */
  function Rows(table: seq<Entry>, lockId: string): seq<Entry> {
    if table == [] then []
    else (if table[0].lockId == lockId then [table[0]] else []) + Rows(table[1..], lockId)
  }

  lemma {:induction false} RowsOfConcat(a: seq<Entry>, b: seq<Entry>, lockId: string)
    ensures Rows(a + b, lockId) == Rows(a, lockId) + Rows(b, lockId)
  {
    if a == [] {
      assert a + b == b;
    } else {
      RowsOfConcat(a[1..], b, lockId);
      assert (a + b)[0] == a[0] && (a + b)[1..] == a[1..] + b;
      ConcatAssoc(if a[0].lockId == lockId then [a[0]] else [], Rows(a[1..], lockId), Rows(b, lockId));
    }
  }

  /** A batch of one lock's entries is all rows of that lock and none of another. */
  lemma {:induction false} RowsOfBatch(batch: seq<Entry>, owner: string, lockId: string)
    requires forall e :: e in batch ==> e.lockId == owner
    ensures Rows(batch, lockId) == if lockId == owner then batch else []
  {
    if batch != [] {
      RowsOfBatch(batch[1..], owner, lockId);
      assert batch == [batch[0]] + batch[1..];
    }
  }

  /** The results sent to one topic, in sending order. */
  function SentTo(sent: seq<Message>, topic: string): seq<AccessResult> {
    if sent == [] then []
    else (if sent[0].topic == topic then [sent[0].result] else []) + SentTo(sent[1..], topic)
  }

  lemma {:induction false} SentToConcat(a: seq<Message>, b: seq<Message>, topic: string)
    ensures SentTo(a + b, topic) == SentTo(a, topic) + SentTo(b, topic)
  {
    if a == [] {
      assert a + b == b;
    } else {
      SentToConcat(a[1..], b, topic);
      assert (a + b)[0] == a[0] && (a + b)[1..] == a[1..] + b;
      ConcatAssoc(if a[0].topic == topic then [a[0].result] else [], SentTo(a[1..], topic), SentTo(b, topic));
    }
  }

  function Results(entries: seq<Entry>): (results: seq<AccessResult>)
    ensures |results| == |entries|
    ensures forall i :: 0 <= i < |entries| ==> results[i] == entries[i].result
  {
    seq(|entries|, i requires 0 <= i < |entries| => entries[i].result)
  }
}
