/** Cluster identifiers (eth/syncer/types.go:100-123). */
module ClusterId {
  import opened Bytes
  import opened Order

  function IdKey(id: u64): seq<int> { [id] }

  /** Each operator id as one 32-byte word. */
  function IdWords(ids: seq<u64>): (r: Bytes)
    ensures |r| == 32 * |ids|
  {
    if ids == [] then [] else BigEndian(ids[0], 32) + IdWords(ids[1..])
  }

  /** The string that is hashed: the owner, then the operator ids in ascending order. */
  function ClusterIDBytes(owner: Address, operatorIDs: seq<u64>): Bytes {
    owner + IdWords(Sorted(operatorIDs, IdKey))
  }

  function ClusterIDOf(k: Keccak, owner: Address, operatorIDs: seq<u64>): Hash {
    k(ClusterIDBytes(owner, operatorIDs))
  }

  lemma {:induction false} IdWordsAppend(a: seq<u64>, id: u64)
    ensures IdWords(a + [id]) == IdWords(a) + BigEndian(id, 32)
  {
    if a != [] {
      assert (a + [id])[1..] == a[1..] + [id];
      IdWordsAppend(a[1..], id);
    }
  }

  lemma {:induction false} IdWordsInjective(a: seq<u64>, b: seq<u64>)
    requires IdWords(a) == IdWords(b)
    ensures a == b
  {
    if a != [] {
      var wa, wb := IdWords(a), IdWords(b);
      assert wa[..32] == BigEndian(a[0], 32) && wb[..32] == BigEndian(b[0], 32);
      assert wa[32..] == IdWords(a[1..]) && wb[32..] == IdWords(b[1..]);
      Word32Injective(a[0], b[0]);
      IdWordsInjective(a[1..], b[1..]);
      assert a == [a[0]] + a[1..] && b == [b[0]] + b[1..];
    }
  }

  lemma SortedIdsAgree(a: seq<u64>, b: seq<u64>)
    requires multiset(a) == multiset(b)
    ensures Sorted(a, IdKey) == Sorted(b, IdKey)
  {
    SortedIsSorted(a, IdKey);
    SortedIsSorted(b, IdKey);
    SortedUnique(Sorted(a, IdKey), Sorted(b, IdKey), IdKey);
  }

  /** The encoding identifies the owner and the operators, whatever order they come in,
      and nothing more. */
  lemma ClusterIDBytesExact(owner: Address, ids: seq<u64>, owner': Address, ids': seq<u64>)
    ensures ClusterIDBytes(owner, ids) == ClusterIDBytes(owner', ids')
      <==> owner == owner' && multiset(ids) == multiset(ids')
  {
    var b, b' := ClusterIDBytes(owner, ids), ClusterIDBytes(owner', ids');
    if multiset(ids) == multiset(ids') { SortedIdsAgree(ids, ids'); }
    if b == b' {
      assert b[..20] == owner && b'[..20] == owner';
      assert b[20..] == IdWords(Sorted(ids, IdKey)) && b'[20..] == IdWords(Sorted(ids', IdKey));
      IdWordsInjective(Sorted(ids, IdKey), Sorted(ids', IdKey));
      assert multiset(ids) == multiset(Sorted(ids, IdKey));
    }
  }

  lemma SliceBehind(a: Bytes, b: Bytes, lo: nat, hi: nat)
    requires lo <= hi <= |b|
    ensures (a + b)[|a| + lo..|a| + hi] == b[lo..hi]
  {
  }

  lemma {:induction false} WordsAt(ids: seq<u64>, i: nat)
    requires i < |ids|
    ensures IdWords(ids)[32 * i..32 * i + 32] == BigEndian(ids[i], 32)
  {
    if i > 0 {
      WordsAt(ids[1..], i - 1);
      SliceBehind(BigEndian(ids[0], 32), IdWords(ids[1..]), 32 * (i - 1), 32 * (i - 1) + 32);
    }
  }

  /** The string holds the 20 bytes of the owner and then each operator id, the ids ascending,
      in 32 bytes, the most significant first. */
  ghost predicate IsIDEncoding(owner: Address, operatorIDs: seq<u64>, s: Bytes) {
    exists ids :: IsAscending(ids, operatorIDs) && IsEncodingOf(owner, ids, s)
  }

  /** The same ids in ascending order. */
  ghost predicate IsAscending(ids: seq<u64>, operatorIDs: seq<u64>) {
    multiset(ids) == multiset(operatorIDs) && forall i, j | 0 <= i < j < |ids| :: ids[i] <= ids[j]
  }

  ghost predicate IsEncodingOf(owner: Address, ids: seq<u64>, s: Bytes) {
    && |s| == 20 + 32 * |ids| && s[..20] == owner
    && forall i | 0 <= i < |ids| :: IsWord(s[20 + 32 * i..52 + 32 * i], ids[i])
  }

  lemma WordInEncoding(owner: Address, ids: seq<u64>, i: nat)
    requires i < |ids|
    ensures IsWord((owner + IdWords(ids))[20 + 32 * i..52 + 32 * i], ids[i])
  {
    WordsAt(ids, i);
    BigEndianIsWord(ids[i]);
    hide IsWord, BigEndian;
    WordBehind(owner, IdWords(ids), 32 * i, BigEndian(ids[i], 32));
  }

  lemma WordBehind(owner: Address, words: Bytes, at: nat, word: Bytes)
    requires at + 32 <= |words| && words[at..at + 32] == word
    ensures (owner + words)[20 + at..52 + at] == word
  {
  }

  lemma EncodingOutright(owner: Address, operatorIDs: seq<u64>)
    ensures IsIDEncoding(owner, operatorIDs, ClusterIDBytes(owner, operatorIDs))
  {
    var ids := Sorted(operatorIDs, IdKey);
    SortedIsSorted(operatorIDs, IdKey);
    hide IsWord, IdWords;
    forall i, j | 0 <= i < j < |ids| ensures ids[i] <= ids[j] {
      assert LexLe(IdKey(ids[i]), IdKey(ids[j]));
    }
    var s := ClusterIDBytes(owner, operatorIDs);
    forall i | 0 <= i < |ids| ensures IsWord(s[20 + 32 * i..52 + 32 * i], ids[i]) {
      WordInEncoding(owner, ids, i);
    }
    assert IsAscending(ids, operatorIDs);
  }

  lemma AppendWord(owner: Bytes, ids: seq<u64>, i: nat)
    requires i < |ids|
    ensures owner + IdWords(ids[..i]) + BigEndian(ids[i], 32) == owner + IdWords(ids[..i+1])
  {
    IdWordsAppend(ids[..i], ids[i]);
    assert ids[..i+1] == ids[..i] + [ids[i]];
  }

  method ComputeClusterID(k: Keccak, owner: Address, operatorIDs: seq<u64>) returns (id: Hash)
    ensures id == ClusterIDOf(k, owner, operatorIDs)
    ensures exists s :: IsIDEncoding(owner, operatorIDs, s) && id == k(s)
  {
    EncodingOutright(owner, operatorIDs);
    hide IsIDEncoding;
    var sortedIDs := Sort(operatorIDs, IdKey);
    SortedIsSorted(operatorIDs, IdKey);
    SortedUnique(sortedIDs, Sorted(operatorIDs, IdKey), IdKey);
    var data: Bytes := owner;
    for i := 0 to |sortedIDs|
      invariant data == owner + IdWords(sortedIDs[..i])
    {
      AppendWord(owner, sortedIDs, i);
      data := data + BigEndian(sortedIDs[i], 32);
    }
    assert sortedIDs[..|sortedIDs|] == sortedIDs;
    id := k(data);
  }
}
