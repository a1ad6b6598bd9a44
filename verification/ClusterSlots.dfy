/** Which of the 16384 slots a key belongs to. */
module ClusterSlots {
  import opened Primitives
  import opened Crc16

  const SLOTS: nat := 16384
  const OPEN: bv16 := 0x7b
  const CLOSE: bv16 := 0x7d

  /** The code units of the two braces. */
  lemma Braces()
    ensures OPEN as int == '{' as int && CLOSE as int == '}' as int
  {
  }

  /** The first `}` at or after `i`. */
  function FirstClose(key: seq<bv16>, i: nat): (j: Option<nat>)
    requires i <= |key|
    ensures j.Some? ==> i <= j.value < |key| && key[j.value] == CLOSE && CLOSE !in key[i..j.value]
    ensures j.None? ==> CLOSE !in key[i..]
    decreases |key| - i
  {
    if i == |key| then None
    else if key[i] == CLOSE then Some(i)
    else
      var j := FirstClose(key, i + 1);
      assert key[i..] == [key[i]] + key[i + 1..];
      assert j.Some? ==> key[i..j.value] == [key[i]] + key[i + 1..j.value];
      j
  }

  /** The first capture of `/\{([^}]+)\}/` that starts at or after `i`. */
  function TagFrom(key: seq<bv16>, i: nat): Option<seq<bv16>>
    requires i <= |key|
    decreases |key| - i
  {
    if i == |key| then None
    else
      var j := FirstClose(key, i + 1);
      if key[i] == OPEN && j.Some? && j.value > i + 1 then Some(key[i + 1..j.value]) else TagFrom(key, i + 1)
  }

  function HashTag(key: seq<bv16>): Option<seq<bv16>> {
    TagFrom(key, 0)
  }

  function HashKey(key: seq<bv16>): seq<bv16> {
    var tag := HashTag(key);
    if tag.Some? then tag.value else key
  }

  function SlotOf(key: seq<bv16>): nat {
    CrcOf(HashKey(key)) as int % SLOTS
  }

  method CalculateSlot(key: seq<bv16>) returns (slot: nat)
    ensures slot == SlotOf(key) && slot < SLOTS
  {
    var tag := HashTag(key);
    var hashKey := if tag.Some? then tag.value else key;
    var crc := Crc16.Crc16(hashKey);
    slot := crc as int % SLOTS;
  }

  /** Every `{` before `n` is followed at once by `}`. */
  predicate OnlyEmptyBraces(key: seq<bv16>, n: nat)
    requires n <= |key|
  {
    forall j :: 0 <= j < n && key[j] == OPEN ==> j + 1 < n && key[j + 1] == CLOSE
  }

  /** The tag starts after a `{` at `i` and ends before a `}` at `e`. */
  predicate TagAt(key: seq<bv16>, i: nat, e: nat) {
    && i + 1 < e < |key|
    && key[i] == OPEN && key[e] == CLOSE && CLOSE !in key[i + 1..e]
    && OnlyEmptyBraces(key, i)
  }

  lemma NoCloseAt(key: seq<bv16>, i: nat, e: nat)
    requires i <= e <= |key| && CLOSE !in key[i..e]
    ensures forall k :: i <= k < e ==> key[k] != CLOSE
  {
    forall k | i <= k < e ensures key[k] != CLOSE {
      assert key[k] == key[i..e][k - i];
    }
  }

  lemma CloseIsFirst(key: seq<bv16>, i: nat, e: nat)
    requires i <= e < |key| && key[e] == CLOSE && CLOSE !in key[i..e]
    ensures FirstClose(key, i) == Some(e)
  {
    var j := FirstClose(key, i);
    assert key[i..][e - i] == CLOSE;
    NoCloseAt(key, i, e);
    NoCloseAt(key, i, j.value);
  }

  /** No match starts before `i`. */
  predicate Passed(key: seq<bv16>, i: nat)
    requires i <= |key|
  {
    forall j :: 0 <= j < i && key[j] == OPEN ==> FirstClose(key, j + 1) in {None, Some(j + 1)}
  }

  lemma PassedIsEmptyBraces(key: seq<bv16>, i: nat, e: nat)
    requires i < e < |key| && Passed(key, i) && key[i] == OPEN && key[e] == CLOSE
    ensures OnlyEmptyBraces(key, i)
  {
    forall j | 0 <= j < i && key[j] == OPEN ensures j + 1 < i && key[j + 1] == CLOSE {
      assert key[j + 1..][e - (j + 1)] == CLOSE;
    }
  }

  lemma {:induction false} SearchFinds(key: seq<bv16>, i: nat) returns (a: nat, e: nat)
    requires i <= |key| && Passed(key, i)
    ensures var tag := TagFrom(key, i);
            if tag.Some? then TagAt(key, a, e) && tag.value == key[a + 1..e] else Passed(key, |key|)
    decreases |key| - i
  {
    a, e := i, 0;
    if i < |key| {
      var j := FirstClose(key, i + 1);
      if key[i] == OPEN && j.Some? && j.value > i + 1 {
        e := j.value;
        PassedIsEmptyBraces(key, i, e);
      } else {
        a, e := SearchFinds(key, i + 1);
      }
    }
  }

  lemma OneTag(key: seq<bv16>, i: nat, e: nat, i': nat, e': nat)
    requires TagAt(key, i, e) && TagAt(key, i', e') && i <= i'
    ensures i == i' && e == e'
  {
    NoCloseAt(key, i + 1, e);
    NoCloseAt(key, i' + 1, e');
    assert key[i + 1] != CLOSE && key[e] == CLOSE && key[e'] == CLOSE;
  }

  /** The capture is what stands between the first `{` not followed at once by `}` and the next `}`. */
  lemma HashTagExactly(key: seq<bv16>, tag: seq<bv16>)
    ensures HashTag(key) == Some(tag) <==> exists i: nat, e: nat :: TagAt(key, i, e) && tag == key[i + 1..e]
  {
    var a, e := SearchFinds(key, 0);
    if i': nat, e': nat :| TagAt(key, i', e') && tag == key[i' + 1..e'] {
      CloseIsFirst(key, i' + 1, e');
      if a <= i' {
        OneTag(key, a, e, i', e');
      } else {
        OneTag(key, i', e', a, e);
      }
    }
  }

  /** Keys with the same tag, whatever stands around it, belong to the same slot. */
  lemma SameTagSameSlot(p: seq<bv16>, s: seq<bv16>, p': seq<bv16>, s': seq<bv16>, tag: seq<bv16>)
    requires tag != [] && CLOSE !in tag && OPEN !in p && OPEN !in p'
    ensures SlotOf(p + [OPEN] + tag + [CLOSE] + s) == SlotOf(p' + [OPEN] + tag + [CLOSE] + s')
    ensures SlotOf(p + [OPEN] + tag + [CLOSE] + s) == CrcOf(tag) as int % SLOTS
  {
    TagIsFound(p, tag, s);
    TagIsFound(p', tag, s');
  }

  /** A key in which no tag stands belongs to the slot of the whole key. */
  lemma UntaggedSlot(key: seq<bv16>)
    requires forall i: nat, e: nat :: !TagAt(key, i, e)
    ensures SlotOf(key) == CrcOf(key) as int % 16384
  {
    if HashTag(key).Some? {
      HashTagExactly(key, HashTag(key).value);
    }
  }

  lemma TagIsFound(p: seq<bv16>, tag: seq<bv16>, s: seq<bv16>)
    requires tag != [] && CLOSE !in tag && OPEN !in p
    ensures HashTag(p + [OPEN] + tag + [CLOSE] + s) == Some(tag)
  {
    var key, i, e := p + [OPEN] + tag + [CLOSE] + s, |p|, |p| + 1 + |tag|;
    assert key[i + 1..e] == tag;
    assert forall j :: 0 <= j < i ==> key[j] == p[j];
    assert TagAt(key, i, e);
    HashTagExactly(key, tag);
  }
}
