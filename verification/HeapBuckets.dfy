/**
The size classes of the kernel heap: a ladder of 35 payload sizes, one free list
per rung. Looking a request up rounds it up to a rung; filing a free block away
rounds it down. All sizes here are payload bytes, without the two size tags.
 */
module HeapBuckets {

  const NUM_LISTS: nat := 35

  /** The least payload each free list may hold. */
  const LIST_SIZES: seq<nat> := [
    8, 16, 24, 32, 40, 48, 56, 64,
    72, 80, 88, 96, 104, 112, 120, 128,
    160, 192, 224, 256, 320, 384, 448, 512,
    768, 1024, 1536, 2048, 4096, 8192, 16384, 32768,
    65536, 131072, 262144
  ]

  /** The largest payload that can be filed: the search for a bucket never reaches the last rung. */
  const MAX_FILED: nat := 131072

  /** The largest request for which memory comes from the system: the next rung would take more than a reserve has. */
  const MAX_SYSTEM_REQUEST: nat := 4096

  /** The ladder as arithmetic; RungIsListSize ties it to the table. */
  function Rung(i: nat): (s: nat)
    requires i < NUM_LISTS
  {
    if i < 16 then 8 * (i + 1)
    else if i < 20 then 32 * (i - 11)
    else if i < 24 then 64 * (i - 15)
    else if i == 24 then 768
    else if i == 25 then 1024
    else if i == 26 then 1536
    else if i == 27 then 2048
    else if i == 28 then 4096
    else if i == 29 then 8192
    else if i == 30 then 16384
    else if i == 31 then 32768
    else if i == 32 then 65536
    else if i == 33 then 131072
    else 262144
  }

  lemma RungIsListSize()
    ensures |LIST_SIZES| == NUM_LISTS
    ensures forall i | 0 <= i < NUM_LISTS :: LIST_SIZES[i] == Rung(i)
  {
  }

  lemma RungStep(i: nat)
    requires i + 1 < NUM_LISTS
    ensures Rung(i) < Rung(i + 1)
  {
  }

  lemma {:induction false} RungsIncrease(i: nat, j: nat)
    requires i < j < NUM_LISTS
    ensures Rung(i) < Rung(j)
    decreases j
  {
    RungStep(j - 1);
    if i < j - 1 {
      RungsIncrease(i, j - 1);
    }
  }

  /** The bucket that holds payloads of `bytes`: the last rung strictly below it, or rung 0. */
  ghost predicate Files(bytes: nat, i: nat) {
    && i + 2 < NUM_LISTS
    && bytes <= Rung(i + 1)
    && (Rung(i) < bytes || (i == 0 && bytes == Rung(0)))
  }

  /** The lowest bucket searched for a request of `bytes`. */
  ghost predicate Serves(bytes: nat, i: nat) {
    && i < NUM_LISTS
    && bytes <= Rung(i)
    && (i > 0 ==> Rung(i - 1) < bytes)
  }

  lemma {:induction false} FirstThatServes(bytes: nat, j: nat) returns (i: nat)
    requires j < NUM_LISTS && bytes <= Rung(j)
    ensures i <= j && Serves(bytes, i)
  {
    if j > 0 && bytes <= Rung(j - 1) {
      i := FirstThatServes(bytes, j - 1);
    } else {
      i := j;
    }
  }

  lemma FilesUnique(bytes: nat, i: nat, j: nat)
    requires Files(bytes, i) && Files(bytes, j)
    ensures i == j
  {
    if i + 1 < j {
      RungsIncrease(i + 1, j);
    } else if j + 1 < i {
      RungsIncrease(j + 1, i);
    }
  }

  /** Rounding up to search and down to file never meet: whatever is found really fits. */
  lemma FoundBlockFits(request: nat, i: nat, payload: nat, j: nat)
    requires Serves(request, i) && Files(payload, j) && i <= j
    ensures request <= payload
  {
    if i < j {
      RungsIncrease(i, j);
    }
  }

  /** Memory requested for the rung above the request is filed where the search already looked. */
  lemma SystemBlockIsSearched(request: nat, i: nat, payload: nat, j: nat)
    requires Serves(request, i) && i + 1 < NUM_LISTS
    requires Rung(i + 1) <= payload && Files(payload, j)
    ensures i <= j && request < payload
  {
    RungStep(i);
    if j + 1 <= i {
      if j + 1 < i {
        RungsIncrease(j + 1, i);
      }
      assert false;
    }
  }

  method SmallestListThatFits(bytes: nat) returns (i: nat)
    ensures i <= NUM_LISTS
    ensures i == NUM_LISTS <==> bytes > Rung(NUM_LISTS - 1)
    ensures i < NUM_LISTS ==> Serves(bytes, i)
  {
    RungIsListSize();
    i := 0;
    while i < NUM_LISTS && bytes > LIST_SIZES[i]
      invariant i <= NUM_LISTS
      invariant i > 0 ==> Rung(i - 1) < bytes
    {
      i := i + 1;
    }
    if i < NUM_LISTS - 1 {
      RungsIncrease(i, NUM_LISTS - 1);
    }
  }

  /** Reads the size table. */
  method ListSize(i: nat) returns (s: nat)
    requires i < NUM_LISTS
    ensures s == Rung(i)
  {
    RungIsListSize();
    s := LIST_SIZES[i];
  }

  datatype Bucket = Filed(index: nat) | TooLarge

  method InsertionIndex(bytes: nat) returns (r: Bucket)
    requires Rung(0) <= bytes
    ensures r.TooLarge? <==> bytes > MAX_FILED
    ensures r.Filed? ==> Files(bytes, r.index)
  {
    RungIsListSize();
    if bytes == LIST_SIZES[0] {
      return Filed(0);
    }
    for i := 0 to NUM_LISTS - 1
      invariant i > 0 ==> Rung(i - 1) < bytes
    {
      if bytes <= LIST_SIZES[i] {
        if i < NUM_LISTS - 2 {
          RungsIncrease(i, NUM_LISTS - 2);
        }
        return Filed(i - 1);
      }
    }
    return TooLarge;
  }
}
