/** The chained hash table with string keys. `chains` lists the entries of every bucket in
    chain order; `model` is the finite map the table stands for. */
module HashTable {
  import opened Bytes

  class Entry<V> {
    const key: CString
    const value: V
    var next: Entry?<V>

    constructor (key: CString, value: V, next: Entry?<V>)
      ensures this.key == key && this.value == value && this.next == next
    {
      this.key, this.value, this.next := key, value, next;
    }
  }

  /** Removed or not found as the code reports it; `NullDereference` is the key comparison
      on a NULL entry behind the end of a chain. */
  datatype RemoveResult = Removed | NotFound | NullDereference

  /** The position of the key in a chain, or the length of the chain. */
  ghost function IndexOf<V>(chain: seq<Entry<V>>, key: CString): (i: nat)
    ensures i <= |chain|
    ensures i < |chain| ==> chain[i].key == key
    ensures forall k :: 0 <= k < i ==> chain[k].key != key
  {
    if chain == [] || chain[0].key == key then 0 else 1 + IndexOf(chain[1..], key)
  }

  /** The keys of a chain, in order. */
  ghost function Keys<V>(chain: seq<Entry<V>>): (keys: seq<CString>)
    ensures |keys| == |chain|
    ensures forall k :: 0 <= k < |chain| ==> keys[k] == chain[k].key
  {
    seq(|chain|, k requires 0 <= k < |chain| => chain[k].key)
  }

  /** The position of the key among keys, or their number. */
  function Place(keys: seq<CString>, key: CString): (i: nat)
    ensures i <= |keys|
    ensures i < |keys| ==> keys[i] == key
    ensures forall k :: 0 <= k < i ==> keys[k] != key
  {
    if keys == [] || keys[0] == key then 0 else 1 + Place(keys[1..], key)
  }

  lemma PlaceIsIndex<V>(chain: seq<Entry<V>>, key: CString)
    ensures Place(Keys(chain), key) == IndexOf(chain, key)
  {
    var i, j := Place(Keys(chain), key), IndexOf(chain, key);
    assert i < |chain| ==> chain[i].key == key;
    assert j < |chain| ==> Keys(chain)[j] == key;
  }

  /** What removing reports for a key at position i of a chain of n entries, or in none of them
      when i is n. The second entry of a chain is never tested, and a search that reaches the
      end of a chain of two or more dereferences NULL. */
  function OutcomeAt(i: nat, n: nat): RemoveResult {
    if i < n && i != 1 then Removed
    else if n <= 1 then NotFound
    else NullDereference
  }

  ghost predicate UniqueKeys<V>(chain: seq<Entry<V>>) {
    forall i, j :: 0 <= i < j < |chain| ==> chain[i].key != chain[j].key
  }

  class Table<V> {
    const size: nat
    const hash: CString -> nat
    const table: array<Entry?<V>>
    ghost var chains: seq<seq<Entry<V>>>
    ghost var entries: set<Entry<V>>
    ghost var model: map<CString, V>

    function Bucket(key: CString): (b: nat)
      requires size > 0
      ensures b < size
    {
      hash(key) % size
    }

    /** The chain starts at `head` and is linked in order. */
    static ghost predicate Linked(head: Entry?<V>, chain: seq<Entry<V>>, entries: set<Entry<V>>)
      reads entries
    {
      && (forall k :: 0 <= k < |chain| ==> chain[k] in entries)
      && head == (if chain == [] then null else chain[0])
      && (forall k {:trigger chain[k].next} :: 0 <= k < |chain| ==>
            chain[k].next == if k + 1 < |chain| then chain[k + 1] else null)
    }

    /** Every entry of the bucket belongs there, and the bucket agrees with the map. */
    ghost predicate Agrees(b: nat, chain: seq<Entry<V>>, model: map<CString, V>)
    {
      && size > 0
      && UniqueKeys(chain)
      && (forall k :: 0 <= k < |chain| ==>
            Bucket(chain[k].key) == b && chain[k].key in model && model[chain[k].key] == chain[k].value)
      && (forall key :: key in model && Bucket(key) == b ==> IndexOf(chain, key) < |chain|)
    }

    ghost predicate BucketOk(b: nat)
      requires b < table.Length && b < |chains|
      reads this, table, entries
    {
      Linked(table[b], chains[b], entries) && Agrees(b, chains[b], model)
    }

    ghost predicate Valid()
      reads this, table, entries
    {
      && size > 0 && table.Length == size == |chains|
      && (forall b :: 0 <= b < size ==> BucketOk(b))
    }

    constructor (size: nat, hash: CString -> nat)
      requires size > 0
      ensures Valid() && fresh(table) && model == map[] && entries == {}
      ensures this.size == size && this.hash == hash
      ensures |chains| == size && forall b :: 0 <= b < size ==> chains[b] == []
    {
      this.size, this.hash := size, hash;
      table := new Entry?<V>[size](_ => null);
      chains := seq(size, _ => []);
      entries, model := {}, map[];
    }

    method Find(key: CString) returns (entry: Entry?<V>)
      requires Valid()
      ensures entry == null <==> key !in model
      ensures entry != null ==> entry.key == key && entry.value == model[key] && entry in entries
    {
      var b := Bucket(key);
      ghost var chain := chains[b];
      assert BucketOk(b);
      ghost var k := 0;
      entry := table[b];
      while entry != null
        invariant 0 <= k <= |chain|
        invariant entry == if k < |chain| then chain[k] else null
        invariant k <= IndexOf(chain, key)
        decreases |chain| - k
      {
        if entry.key == key {
          return;
        }
        entry := entry.next;
        k := k + 1;
      }
    }

    /** Buckets other than the one of a new key keep agreeing with the map. */
    lemma OtherBucketAdds(b: nat, chain: seq<Entry<V>>, key: CString, value: V, m: map<CString, V>)
      requires Agrees(b, chain, m) && Bucket(key) != b
      ensures Agrees(b, chain, m[key := value])
    {
    }

    lemma BucketAdds(b: nat, chain: seq<Entry<V>>, e: Entry<V>, m: map<CString, V>)
      requires Agrees(b, chain, m) && Bucket(e.key) == b && e.key !in m
      ensures Agrees(b, [e] + chain, m[e.key := e.value])
    {
      var longer := [e] + chain;
      assert longer[1..] == chain;
    }

    /** HashString_add: false when the key is there already. A new entry goes to the front of
        its chain. */
    method Add(key: CString, value: V) returns (added: bool)
      requires Valid()
      modifies this, table
      ensures Valid()
      ensures added <==> key !in old(model)
      ensures !added ==> model == old(model) && chains == old(chains) && entries == old(entries)
      ensures added ==> model == old(model)[key := value]
      ensures added ==> chains[Bucket(key)] != [] && fresh(chains[Bucket(key)][0])
                        && chains[Bucket(key)][0].key == key
                        && chains == old(chains)[Bucket(key) := [chains[Bucket(key)][0]] + old(chains)[Bucket(key)]]
                        && entries == old(entries) + {chains[Bucket(key)][0]}
    {
      hide Agrees;
      var oldEntry := Find(key);
      if oldEntry != null {
        return false;
      }
      var b := Bucket(key);
      assert BucketOk(b);
      var newEntry := new Entry(key, value, table[b]);
      ghost var was, links := model, chains[b];
      BucketAdds(b, chains[b], newEntry, model);
      forall c | 0 <= c < size && c != b ensures Agrees(c, chains[c], model[key := value]) {
        assert BucketOk(c);
        OtherBucketAdds(c, chains[c], key, value, model);
      }
      forall c | 0 <= c < size && c != b ensures Linked(table[c], chains[c], entries) {
        assert BucketOk(c);
      }
      table[b] := newEntry;
      chains := chains[b := [newEntry] + chains[b]];
      entries := entries + {newEntry};
      model := model[key := value];
      assert Linked(table[b], chains[b], entries);
      return true;
    }

    lemma OtherBucketRemoves(b: nat, chain: seq<Entry<V>>, key: CString, m: map<CString, V>)
      requires Agrees(b, chain, m) && Bucket(key) != b
      ensures Agrees(b, chain, m - {key})
    {
    }

    lemma {:induction false} IndexAfterRemoval(chain: seq<Entry<V>>, i: nat, key: CString)
      requires i < |chain| && chain[i].key != key && IndexOf(chain, key) < |chain|
      ensures IndexOf(chain[..i] + chain[i + 1..], key) < |chain| - 1
    {
      var shorter := chain[..i] + chain[i + 1..];
      var k := IndexOf(chain, key);
      assert shorter[if k < i then k else k - 1] == chain[k];
    }

    lemma BucketRemoves(b: nat, chain: seq<Entry<V>>, i: nat, m: map<CString, V>)
      requires Agrees(b, chain, m) && i < |chain|
      ensures Agrees(b, chain[..i] + chain[i + 1..], m - {chain[i].key})
    {
      var shorter := chain[..i] + chain[i + 1..];
      forall key | key in m && key != chain[i].key && Bucket(key) == b
        ensures IndexOf(shorter, key) < |shorter|
      {
        IndexAfterRemoval(chain, i, key);
      }
    }

    /** What HashString_remove reports. */
    static ghost function RemoveOutcome(chain: seq<Entry<V>>, key: CString): RemoveResult {
      OutcomeAt(IndexOf(chain, key), |chain|)
    }

    /** The outcome for a key of the map depends on whether it is second in its chain, for any
        other key on the length of the chain. */
    lemma OutcomeByModel(key: CString)
      requires Valid()
      ensures var chain := chains[Bucket(key)];
              RemoveOutcome(chain, key) ==
                if key in model then (if |chain| > 1 && chain[1].key == key then NullDereference else Removed)
                else if |chain| > 1 then NullDereference
                else NotFound
    {
      var chain := chains[Bucket(key)];
      assert BucketOk(Bucket(key));
      if |chain| > 1 && chain[1].key == key {
        IndexOfFirst(chain, 1, key);
      }
    }

    /** Takes entry i out of its chain, given the entry in front of it. */
    method Unlink(b: nat, ghost i: nat, prevEntry: Entry?<V>, currEntry: Entry<V>)
      requires Valid() && b < size && i < |chains[b]| && currEntry == chains[b][i]
      requires prevEntry == if i == 0 then null else chains[b][i - 1]
      modifies this, table, entries
      ensures Valid() && entries == old(entries)
      ensures model == old(model) - {currEntry.key}
      ensures chains == old(chains)[b := old(chains)[b][..i] + old(chains)[b][i + 1..]]
    {
      ghost var chain, key := chains[b], currEntry.key;
      ghost var shorter := chain[..i] + chain[i + 1..];
      assert BucketOk(b);
      BucketRemoves(b, chain, i, model);
      ghost var after := chains[b := shorter];
      forall c | 0 <= c < size ensures Agrees(c, after[c], model - {key}) {
        assert BucketOk(c);
        if c != b {
          OtherBucketRemoves(c, chains[c], key, model);
        }
      }
      EntriesAreDistinct(b);
      forall c | 0 <= c < size ensures Linked(table[c], chains[c], entries) {
        assert BucketOk(c);
      }
      Relink(b, i, prevEntry, currEntry);
      hide Agrees, Linked;
      chains := after;
      model := model - {key};
    }

    ghost predicate DistinctFrom(b: nat)
      requires |chains| == size && b < size
      reads this
    {
      forall c, k, i | 0 <= c < size && 0 <= k < |chains[c]| && 0 <= i < |chains[b]| ::
        chains[c][k] == chains[b][i] ==> c == b && k == i
    }

    /** An entry occurs in one place only. */
    lemma EntriesAreDistinct(b: nat)
      requires Valid() && b < size
      ensures DistinctFrom(b)
    {
      assert BucketOk(b);
      forall c, k, i | 0 <= c < size && 0 <= k < |chains[c]| && 0 <= i < |chains[b]|
                       && chains[c][k] == chains[b][i]
        ensures c == b && k == i
      {
        assert BucketOk(c);
        assert Bucket(chains[c][k].key) == c && Bucket(chains[b][i].key) == b;
      }
    }

    /** The one pointer that changes. */
    method Relink(b: nat, ghost i: nat, prevEntry: Entry?<V>, currEntry: Entry<V>)
      requires table.Length == size == |chains| && b < size
      requires i < |chains[b]| && currEntry == chains[b][i]
      requires prevEntry == if i == 0 then null else chains[b][i - 1]
      requires forall c :: 0 <= c < size ==> Linked(table[c], chains[c], entries)
      requires DistinctFrom(b)
      modifies table, entries
      ensures forall c :: 0 <= c < size && c != b ==> Linked(table[c], chains[c], entries)
      ensures Linked(table[b], chains[b][..i] + chains[b][i + 1..], entries)
    {
      if prevEntry == null {
        table[b] := currEntry.next;
      } else {
        prevEntry.next := currEntry.next;
      }
      forall c | 0 <= c < size && c != b ensures Linked(table[c], chains[c], entries) {
        assert old(Linked(table[c], chains[c], entries));
        assert prevEntry != null ==> prevEntry !in chains[c];
      }
    }

    lemma IndexOfFirst(chain: seq<Entry<V>>, k: nat, key: CString)
      requires UniqueKeys(chain) && k < |chain| && chain[k].key == key
      ensures IndexOf(chain, key) == k
    {
      assert IndexOf(chain, key) <= k;
    }

    /** When no entry but perhaps the second has the key, nothing is removed. */
    lemma NoneTested(chain: seq<Entry<V>>, key: CString)
      requires chain != [] && forall j :: 0 <= j < |chain| && j != 1 ==> chain[j].key != key
      ensures RemoveOutcome(chain, key) == if |chain| == 1 then NotFound else NullDereference
    {
    }

    method Remove(key: CString) returns (result: RemoveResult)
      requires Valid()
      modifies this, table, entries
      ensures Valid() && entries == old(entries)
      ensures result == RemoveOutcome(old(chains[Bucket(key)]), key)
      ensures key in old(model) ==>
                result == if |old(chains[Bucket(key)])| > 1 && old(chains[Bucket(key)])[1].key == key then NullDereference else Removed
      ensures key !in old(model) ==>
                result == if |old(chains[Bucket(key)])| > 1 then NullDereference else NotFound
      ensures result != Removed ==> model == old(model) && chains == old(chains)
      ensures result == Removed ==> model == old(model) - {key}
      ensures result == Removed ==>
                var b := Bucket(key);
                var i := IndexOf(old(chains)[b], key);
                i < |old(chains)[b]| && chains == old(chains)[b := old(chains)[b][..i] + old(chains)[b][i + 1..]]
    {
      var b := Bucket(key);
      assert BucketOk(b);
      ghost var chain := chains[b];
      assert Linked(table[b], chain, entries) && UniqueKeys(chain);
      OutcomeByModel(key);
      hide IndexOf, Agrees, UniqueKeys;
      var currEntry := table[b];
      if currEntry == null {
        return NotFound;
      }
      if currEntry.key == key {
        IndexOfFirst(chain, 0, key);
        Unlink(b, 0, null, currEntry);
        return Removed;
      }
      var prevEntry := currEntry;
      currEntry := currEntry.next;
      ghost var k := 1;
      while currEntry != null
        invariant 1 <= k <= |chain| && (k > 1 ==> currEntry != null)
        invariant prevEntry == chain[k - 1] && currEntry == if k < |chain| then chain[k] else null
        invariant forall j :: 0 <= j <= k && j < |chain| && j != 1 ==> chain[j].key != key
        decreases |chain| - k
      {
        prevEntry := currEntry;
        currEntry := currEntry.next;
        k := k + 1;
        if currEntry == null {
          NoneTested(chain, key);
          return NullDereference;
        }
        if currEntry.key == key {
          IndexOfFirst(chain, k, key);
          Unlink(b, k, prevEntry, currEntry);
          return Removed;
        }
      }
      NoneTested(chain, key);
      return NotFound;
    }

    /** HashString_firstEntry, called with a NULL entry: the head of the first bucket that is
        not empty, and the number of the bucket behind it. */
    method FirstEntry() returns (entry: Entry?<V>, i: nat)
      requires Valid()
      ensures i <= size
      ensures entry == null ==> i == size && forall b :: 0 <= b < size ==> chains[b] == []
      ensures entry != null ==> 0 < i && chains[i - 1] != [] && entry == chains[i - 1][0]
      ensures entry != null ==> forall b :: 0 <= b < i - 1 ==> chains[b] == []
    {
      entry, i := null, 0;
      entry, i := NextBucket(0);
    }

    /** The search both iteration functions end with. */
    method NextBucket(start: nat) returns (entry: Entry?<V>, i: nat)
      requires Valid() && start <= size
      ensures start <= i <= size
      ensures entry == null ==> i == size && forall b :: start <= b < size ==> chains[b] == []
      ensures entry != null ==> start < i && chains[i - 1] != [] && entry == chains[i - 1][0]
      ensures entry != null ==> forall b :: start <= b < i - 1 ==> chains[b] == []
    {
      entry, i := null, start;
      while i < size && entry == null
        invariant start <= i <= size
        invariant entry == null ==> forall b :: start <= b < i ==> chains[b] == []
        invariant entry != null ==> start < i && chains[i - 1] != [] && entry == chains[i - 1][0]
        invariant entry != null ==> forall b :: start <= b < i - 1 ==> chains[b] == []
      {
        assert BucketOk(i);
        entry := table[i];
        i := i + 1;
      }
    }

    /** HashString_nextEntry for an entry at position k of the bucket before i, or for NULL,
        which ends the iteration. */
    method NextEntry(current: Entry?<V>, i: nat, ghost k: nat) returns (entry: Entry?<V>, next: nat)
      requires Valid() && i <= size
      requires current != null ==> 0 < i && k < |chains[i - 1]| && current == chains[i - 1][k]
      ensures i <= next <= size
      ensures current == null ==> entry == null && next == size
      ensures current != null && k + 1 < |chains[i - 1]| ==> next == i && entry == chains[i - 1][k + 1]
      ensures current != null && k + 1 == |chains[i - 1]| && entry == null ==>
                next == size && forall b :: i <= b < size ==> chains[b] == []
      ensures current != null && k + 1 == |chains[i - 1]| && entry != null ==>
                i < next && chains[next - 1] != [] && entry == chains[next - 1][0]
                && forall b :: i <= b < next - 1 ==> chains[b] == []
    {
      if current == null {
        return null, size;
      }
      assert BucketOk(i - 1);
      entry, next := current.next, i;
      if entry != null {
        return;
      }
      entry, next := NextBucket(i);
    }

    /** HASH_STRING_ITER: the loop stops as soon as the bucket number has reached the size,
        which it has for every entry of the last bucket. */
    method Iterate() returns (visited: seq<Entry<V>>)
      requires Valid()
      ensures visited == Concat(chains[..|chains| - 1])
    {
      hide BucketOk, Concat;
      visited := [];
      var entry, i := FirstEntry();
      ghost var k := 0;
      EmptyBuckets(chains, 0, if entry == null then size - 1 else i - 1);
      while i < size && entry != null
        invariant 0 <= i <= size
        invariant entry != null ==> 0 < i && k < |chains[i - 1]| && entry == chains[i - 1][k]
        invariant entry != null ==> visited == Concat(chains[..i - 1]) + chains[i - 1][..k]
        invariant entry != null && i == size ==> k == 0
        invariant entry == null ==> visited == Concat(chains[..|chains| - 1])
        decreases size - i, Left(entry != null, i, k)
      {
        visited := visited + [entry];
        assert chains[i - 1][..k + 1] == chains[i - 1][..k] + [entry];
        ghost var b := i - 1;
        entry, i := NextEntry(entry, i, k);
        if k + 1 < |chains[b]| {
          k := k + 1;
        } else {
          k := 0;
          assert chains[b][..|chains[b]|] == chains[b];
          ConcatOneMore(chains, b);
          EmptyBuckets(chains, b + 1, if entry == null then size - 1 else i - 1);
        }
      }
    }

    /** How much of the current chain is still to be visited. */
    ghost function Left(some: bool, i: int, k: int): int
      requires some ==> 0 < i <= |chains|
      reads this
    {
      if some then |chains[i - 1]| - k else 0
    }

    lemma {:induction false} EmptyBuckets(chains: seq<seq<Entry<V>>>, lo: nat, hi: nat)
      requires lo <= hi <= |chains| && forall b :: lo <= b < hi ==> chains[b] == []
      ensures Concat(chains[..hi]) == Concat(chains[..lo])
      ensures lo == 0 ==> Concat(chains[..lo]) == []
      decreases hi
    {
      if lo < hi {
        EmptyBuckets(chains, lo, hi - 1);
        ConcatOneMore(chains, hi - 1);
      }
    }

    lemma ConcatOneMore(chains: seq<seq<Entry<V>>>, b: nat)
      requires b < |chains|
      ensures Concat(chains[..b + 1]) == Concat(chains[..b]) + chains[b]
    {
      assert chains[..b + 1][..b] == chains[..b];
    }

    /** The first b buckets hold every key that belongs there exactly once and no other. */
    lemma {:induction false} BucketsHold(b: nat, key: CString)
      requires Valid() && b <= size
      ensures HasKey(Concat(chains[..b]), key) <==> key in model && Bucket(key) < b
      ensures UniqueKeys(Concat(chains[..b]))
      ensures forall k :: 0 <= k < |Concat(chains[..b])| ==>
                var e := Concat(chains[..b])[k];
                Bucket(e.key) < b && e.key in model && model[e.key] == e.value
      decreases b
    {
      if b > 0 {
        BucketsHold(b - 1, key);
        assert BucketOk(b - 1);
        ConcatOneMore(chains, b - 1);
        HasKeyConcat(Concat(chains[..b - 1]), chains[b - 1], key);
      }
    }

    static lemma HasKeyConcat(s: seq<Entry<V>>, chain: seq<Entry<V>>, key: CString)
      ensures HasKey(s + chain, key) <==> HasKey(s, key) || IndexOf(chain, key) < |chain|
    {
      if HasKey(s, key) {
        var k :| 0 <= k < |s| && s[k].key == key;
        assert (s + chain)[k].key == key;
      }
      if IndexOf(chain, key) < |chain| {
        assert (s + chain)[|s| + IndexOf(chain, key)].key == key;
      }
    }

    ghost predicate AllInModel(entries: seq<Entry<V>>)
      reads this
    {
      forall k :: 0 <= k < |entries| ==> entries[k].key in model && model[entries[k].key] == entries[k].value
    }

    /** Iteration visits an entry exactly when its bucket is not the last, and once. */
    lemma IterationMissesLastBucket(key: CString)
      requires Valid()
      ensures HasKey(Concat(chains[..size - 1]), key) <==> key in model && Bucket(key) != size - 1
      ensures UniqueKeys(Concat(chains[..size - 1]))
      ensures AllInModel(Concat(chains[..size - 1]))
    {
      BucketsHold(size - 1, key);
    }
  }

  ghost predicate HasKey<V>(s: seq<Entry<V>>, key: CString) {
    exists k :: 0 <= k < |s| && s[k].key == key
  }

  /** The buckets one after the other. */
  ghost function Concat<V>(chains: seq<seq<Entry<V>>>): seq<Entry<V>> {
    if chains == [] then [] else Concat(chains[..|chains| - 1]) + chains[|chains| - 1]
  }

  /** Two colliding keys, of which the older one is removed. */
  method RemoveOlderOfTwo() returns (result: RemoveResult)
    ensures result == NullDereference
  {
    var table := new Table<int>(1, _ => 0);
    var addedA := table.Add([97], 1);
    var addedB := table.Add([98], 2);
    assert IndexOf(table.chains[0], [97]) == 1;
    result := table.Remove([97]);
  }
}
