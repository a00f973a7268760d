/** One queue per vault, and closing all of them at shutdown. */
module GitRegistry {
  import opened GitModel
  import opened GitQueue

  /** How closing one queue goes. */
  datatype Closing = Closing(attempt: Attempt, clearWorks: bool)

  /** `order` goes through the keys of `m`, each once. */
  ghost predicate Visits(order: seq<int>, m: map<int, Queue>) {
    && (forall j :: 0 <= j < |order| ==> order[j] in m)
    && (forall v :: v in m ==> v in order)
    && forall i, j :: 0 <= i < j < |order| ==> order[i] != order[j]
  }

  /** Git's part of the closing flush and the clearing of the rows succeed. */
  predicate Succeeds(r: Repo, c: Closing) {
    ValidRepo(r) && AddAndCommit(r, c.attempt).1 && c.clearWorks
  }

  /** The queue takes no more tasks, no timer will fire, and its flush went as
      `c` says from the repository `r`; when it worked nothing is left to do. */
  ghost predicate ClosedFrom(q: Queue, r: Repo, c: Closing)
    reads q, q.disk
  {
    && q.closed && !q.timer
    && ValidRepo(r) && q.disk.repo == AddAndCommit(r, c.attempt).0
    && (Succeeds(r, c) ==> q.pending == map[] && q.disk.rows == map[])
  }

  class QueueRegistry {
    var queues: map<int, Queue>

    /** Vaults share neither queues nor disks. */
    ghost predicate Valid()
      reads this
    {
      forall v, w :: v in queues && w in queues && v != w ==>
        queues[v] != queues[w] && queues[v].disk != queues[w].disk
    }

    constructor ()
      ensures queues == map[] && Valid()
    {
      queues := map[];
    }

    /** The vault's queue: always the same one, made on the first call. */
    method For(vault: int, disk: Disk) returns (q: Queue)
      requires Valid()
      requires forall v :: v in queues ==> (queues[v].disk == disk <==> v == vault)
      modifies this
      ensures Valid() && vault in queues && queues[vault] == q && q.disk == disk
      ensures vault in old(queues) ==> queues == old(queues)
      ensures vault !in old(queues) ==> fresh(q) && queues == old(queues)[vault := q] && q.pending == map[] && !q.closed
    {
      if vault in queues {
        return queues[vault];
      }
      q := new Queue(disk);
      queues := queues[vault := q];
    }

    /** Every queue is closed and tried once, whatever the others do; the call
        reports an error exactly when one of them fails.  `order` is the order in
        which the map is visited. */
    method CloseAll(order: seq<int>, how: map<int, Closing>) returns (ok: bool)
      requires Valid() && how.Keys == queues.Keys && Visits(order, queues)
      requires forall v :: v in queues ==> ValidRepo(queues[v].disk.repo)
      modifies queues.Values, set q | q in queues.Values :: q.disk
      ensures forall v :: v in queues ==> ClosedFrom(queues[v], old(queues[v].disk.repo), how[v])
      ensures ok <==> forall v :: v in queues ==> Succeeds(old(queues[v].disk.repo), how[v])
    {
      var copy := queues;
      ghost var repos := map v | v in queues :: queues[v].disk.repo;
      ok := true;
      for i := 0 to |order|
        invariant queues == copy
        invariant forall j :: 0 <= j < i ==> ClosedFrom(copy[order[j]], repos[order[j]], how[order[j]])
        invariant ok <==> forall j :: 0 <= j < i ==> Succeeds(repos[order[j]], how[order[j]])
        invariant forall j :: i <= j < |order| ==> copy[order[j]].disk.repo == repos[order[j]]
      {
        var queue := copy[order[i]];
        assert queue in old(queues).Values;
        assert forall j :: 0 <= j < |order| && j != i ==> copy[order[j]] != queue && copy[order[j]].disk != queue.disk;
        var closed := queue.Close(how[order[i]].attempt, how[order[i]].clearWorks);
        ok := ok && closed;
      }
      forall v | v in queues ensures exists j :: 0 <= j < |order| && order[j] == v {
        assert v in order;
      }
    }
  }
}
