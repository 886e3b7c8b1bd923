/** The process table: process data by name, kept in the hash table, with a length. */
module ProcessTable {
  import opened Bytes
  import opened HashTable

  datatype Relation = Unknown | Child | Parent | Independent

  datatype TableResult = Success | Fail | Crash

  /** A connected stream socket: the bytes it has taken so far, and how many bytes it takes
      in each of the coming calls. */
  class Socket {
    ghost var stream: bytes
    var accepts: seq<nat>

    constructor (accepts: seq<nat>)
      ensures stream == [] && this.accepts == accepts
    {
      stream := [];
      this.accepts := accepts;
    }

    /** A send takes at least one byte and possibly fewer than offered. */
    method Send(data: bytes) returns (sent: nat)
      requires data != []
      modifies this
      ensures 1 <= sent <= |data| && stream == old(stream) + data[..sent]
    {
      sent := |data|;
      if accepts != [] {
        if 1 <= accepts[0] < sent {
          sent := accepts[0];
        }
        accepts := accepts[1..];
      }
      stream := stream + data[..sent];
    }
  }

  class ProcessData {
    const domain: CString
    const port: int
    const relation: Relation
    const connection: Socket
    var active: bool
    ghost var freed: bool

    constructor (domain: CString, port: int, relation: Relation, connection: Socket)
      ensures this.domain == domain && this.port == port
      ensures this.relation == relation && this.connection == connection && !active && !freed
    {
      this.domain, this.port, this.relation, this.connection := domain, port, relation, connection;
      active, freed := false, false;
    }

    /** wimp_process_data_free */
    method Free()
      modifies this`freed
      ensures freed
    {
      freed := true;
    }
  }

  class ProcessTable {
    const hashTable: Table<ProcessData>
    var tableLength: nat

    /** The length is the number of processes in the table. */
    ghost predicate Valid()
      reads this, hashTable, hashTable.table, hashTable.entries
    {
      hashTable.Valid() && tableLength == |hashTable.model|
    }

    constructor (size: nat, hash: CString -> nat)
      requires size > 0
      ensures Valid() && fresh(hashTable) && fresh(hashTable.table) && hashTable.model == map[]
      ensures hashTable.size == size
    {
      hashTable := new Table(size, hash);
      tableLength := 0;
    }

    method Add(name: CString, domain: CString, port: int, relation: Relation, connection: Socket) returns (result: TableResult)
      requires Valid()
      modifies this, hashTable, hashTable.table
      ensures Valid()
      ensures result == if name in old(hashTable.model) then Fail else Success
      ensures result == Fail ==> hashTable.model == old(hashTable.model)
      ensures result == Success ==> name in hashTable.model
      ensures result == Success ==> hashTable.model == old(hashTable.model)[name := hashTable.model[name]]
      ensures result == Success ==> fresh(hashTable.model[name]) && !hashTable.model[name].active
      ensures result == Success ==> hashTable.model[name].domain == domain && hashTable.model[name].port == port
      ensures result == Success ==> hashTable.model[name].relation == relation
      ensures result == Success ==> hashTable.model[name].connection == connection
    {
      var entry := hashTable.Find(name);
      if entry != null {
        return Fail;
      }
      var data := new ProcessData(domain, port, relation, connection);
      var added := hashTable.Add(name, data);
      if !added {
        return Fail;
      }
      tableLength := tableLength + 1;
      return Success;
    }

    /** Removing works for exactly the processes at the head of their chain or behind its
        second entry; for the second entry the search runs off the chain. Either way the data of
        the process is freed before. */
    method Remove(name: CString) returns (result: TableResult)
      requires Valid()
      modifies this, hashTable, hashTable.table, hashTable.entries
      modifies if name in hashTable.model then {hashTable.model[name]} else {}
      ensures name in old(hashTable.model) ==> old(hashTable.model[name]).freed
      ensures result != Crash ==> Valid()
      ensures hashTable.model == if result == Success then old(hashTable.model) - {name} else old(hashTable.model)
      ensures result == Fail <==> name !in old(hashTable.model)
      ensures result == Crash <==>
              (name in old(hashTable.model) && IndexOf(old(hashTable.chains[hashTable.Bucket(name)]), name) == 1)
    {
      var entry := hashTable.Find(name);
      assert hashTable.BucketOk(hashTable.Bucket(name));
      if entry == null {
        return Fail;
      }
      entry.value.Free();
      var outcome := hashTable.Remove(name);
      if outcome == NullDereference {
        return Crash;
      }
      tableLength := tableLength - 1;
      if outcome != Removed {
        return Fail;
      }
      return Success;
    }

    method Get(name: Option<CString>) returns (data: Option<ProcessData>)
      requires Valid()
      ensures data == if name.Some? && name.value in hashTable.model then Some(hashTable.model[name.value]) else None
    {
      if name == None {
        return None;
      }
      var entry := hashTable.Find(name.value);
      if entry == null {
        return None;
      }
      return Some(entry.value);
    }
  }
}
