/**
 * The free-list registry: one doubly linked list per order, threaded through
 * the headers that sit at the start of the free blocks. Everything here is
 * stated on the sequence of headers (one per arena offset) and the sequence of
 * list heads, as values, so that `add_free_block` and `remove_free_block` can
 * be specified by the header sequence they leave behind.
 */
module FreeLists {

  /** NULL, as a header offset. */
  const Nil: int := -1

  /** The header at the start of every block (`header_t`): links are offsets, Nil for NULL. */
  datatype Header = Header(used: bool, order: nat, next: int, prev: int)

  /**
   * The free list of order k holds the offsets L, from head to tail: head is
   * the first of them (Nil when L is empty), each header has order k, each
   * next points at the following offset and each prev at the preceding one,
   * the first prev and the last next are Nil, and no offset appears twice.
   */
  ghost predicate LinkedList(L: seq<nat>, head: int, s: seq<Header>, k: nat) {
    head == (if L == [] then Nil else L[0]) &&
    (forall i :: 0 <= i < |L| ==> L[i] < |s| && s[L[i]].order == k) &&
    (forall i, j :: 0 <= i && j == i + 1 && j < |L| ==> s[L[i]].next == L[j] && s[L[j]].prev == L[i]) &&
    (L != [] ==> s[L[0]].prev == Nil && s[L[|L| - 1]].next == Nil) &&
    (forall i, j :: 0 <= i < j < |L| ==> L[i] != L[j])
  }

  /** The offset x is on some free list. */
  ghost predicate Listed(lists: seq<seq<nat>>, x: nat) {
    exists k :: 0 <= k < |lists| && x in lists[k]
  }

  /** lists[k] is the free list of order k, whose head is heads[k]. */
  ghost predicate Registry(lists: seq<seq<nat>>, heads: seq<int>, s: seq<Header>) {
    |lists| == |heads| &&
    forall k {:trigger LinkedList(lists[k], heads[k], s, k)} :: 0 <= k < |lists| ==> LinkedList(lists[k], heads[k], s, k)
  }

  /** L without the offset x; the other offsets keep their relative order. */
  function Remove(L: seq<nat>, x: nat): (r: seq<nat>)
    ensures forall y :: y in r <==> y in L && y != x
  {
    if L == [] then []
    else (if L[0] == x then [] else [L[0]]) + Remove(L[1..], x)
  }

  /** Removing one offset from a list without repetitions cuts it out at its position. */
  lemma {:induction false} RemoveAt(L: seq<nat>, i: nat)
    requires i < |L|
    requires forall a, b :: 0 <= a < b < |L| ==> L[a] != L[b]
    ensures Remove(L, L[i]) == L[..i] + L[i + 1..]
  {
    if i == 0 {
      assert L[0] !in L[1..];
      NotInRemove(L[1..], L[0]);
    } else {
      var T := L[1..];
      forall a, b | 0 <= a < b < |T|
        ensures T[a] != T[b]
      {
        assert T[a] == L[a + 1] && T[b] == L[b + 1];
      }
      assert T[i - 1] == L[i] && L[0] != L[i];
      RemoveAt(T, i - 1);
      assert Remove(L, L[i]) == [L[0]] + Remove(T, L[i]);
      assert T[..i - 1] == L[1..i] && T[i..] == L[i + 1..];
      assert [L[0]] + L[1..i] == L[..i];
    }
  }

  lemma {:induction false} NotInRemove(L: seq<nat>, x: nat)
    requires x !in L
    ensures Remove(L, x) == L
  {
    if L != [] {
      assert L[0] != x && x !in L[1..];
      NotInRemove(L[1..], x);
      assert L == [L[0]] + L[1..];
    }
  }

  /**
   * The headers after `add_free_block(k, h)` when the list of order k starts
   * at head: h becomes a free block of order k with no previous and the old
   * head after it, and the old head (if any) points back at h.
   */
  function Pushed(s: seq<Header>, head: int, h: nat, k: nat): (r: seq<Header>)
    requires h < |s| && (head == Nil || 0 <= head < |s|)
    ensures |r| == |s| && (head != h ==> r[h] == Header(false, k, head, Nil))
    ensures head != Nil && head != h ==> r[head] == s[head].(prev := h)
    ensures forall p :: 0 <= p < |s| && p != h && p != head ==> r[p] == s[p]
  {
    var s1 := s[h := Header(false, k, head, Nil)];
    if head == Nil then s1 else s1[head := s1[head].(prev := h)]
  }

  /** Pushing h rewrites links only, except in h's own header. */
  lemma PushedFields(s: seq<Header>, head: int, h: nat, k: nat, p: nat)
    requires h < |s| && (head == Nil || 0 <= head < |s|) && p < |s| && p != h
    ensures Pushed(s, head, h, k)[p].used == s[p].used && Pushed(s, head, h, k)[p].order == s[p].order
  {
  }

  /** The links stored in the header of the i-th block of a list. */
  lemma LinkAt(L: seq<nat>, head: int, s: seq<Header>, k: nat, i: nat)
    requires LinkedList(L, head, s, k) && i < |L|
    ensures L[i] < |s| && s[L[i]].order == k
    ensures s[L[i]].next == (if i + 1 < |L| then L[i + 1] else Nil)
    ensures s[L[i]].prev == (if i == 0 then Nil else L[i - 1])
  {
  }

  /** A list whose headers are untouched stays the same list. */
  lemma FrameList(L: seq<nat>, head: int, s: seq<Header>, s': seq<Header>, k: nat)
    requires LinkedList(L, head, s, k) && |s'| == |s|
    requires forall i :: 0 <= i < |L| ==> s'[L[i]] == s[L[i]]
    ensures LinkedList(L, head, s', k)
  {
  }

  /** Pushing h, which is in no list, on the list of order k gives the list [h] + L. */
  lemma PushKeepsList(L: seq<nat>, head: int, s: seq<Header>, k: nat, h: nat)
    requires LinkedList(L, head, s, k) && h < |s| && h !in L
    ensures LinkedList([h] + L, h, Pushed(s, head, h, k), k)
  {
    var L' := [h] + L;
    var s' := Pushed(s, head, h, k);
    assert head != Nil ==> head == L[0] && head != h;
    assert s'[h] == Header(false, k, head, Nil);
    forall i | 0 <= i < |L|
      ensures L[i] < |s| && s'[L[i]] == (if i == 0 then s[L[i]].(prev := h) else s[L[i]])
    {
      assert L[i] != h;
      if i > 0 {
        assert L[i] != L[0];
      }
    }
    forall i | 0 <= i < |L'|
      ensures L'[i] < |s'| && s'[L'[i]].order == k
    {
      if i > 0 {
        assert L'[i] == L[i - 1];
      }
    }
    forall i, j | 0 <= i && j == i + 1 && j < |L'|
      ensures s'[L'[i]].next == L'[j] && s'[L'[j]].prev == L'[i]
    {
      assert L'[j] == L[i];
      if i > 0 {
        assert L'[i] == L[i - 1];
        LinkAt(L, head, s, k, i - 1);
      }
    }
    if L != [] {
      LinkAt(L, head, s, k, |L| - 1);
      assert L'[|L'| - 1] == L[|L| - 1];
    }
    forall a, b | 0 <= a < b < |L'|
      ensures L'[a] != L'[b]
    {
      if a > 0 {
        assert L'[a] == L[a - 1];
      }
      assert L'[b] == L[b - 1];
    }
  }

  /** add_free_block keeps every list well linked, with h at the head of the list of order k. */
  lemma PushKeepsRegistry(lists: seq<seq<nat>>, heads: seq<int>, s: seq<Header>, k: nat, h: nat)
    requires Registry(lists, heads, s) && k < |lists| && h < |s| && !Listed(lists, h)
    ensures heads[k] == Nil || 0 <= heads[k] < |s|
    ensures Registry(lists[k := [h] + lists[k]], heads[k := h], Pushed(s, heads[k], h, k))
  {
    assert LinkedList(lists[k], heads[k], s, k);
    var s' := Pushed(s, heads[k], h, k);
    var lists' := lists[k := [h] + lists[k]];
    var heads' := heads[k := h];
    forall j | 0 <= j < |lists'|
      ensures LinkedList(lists'[j], heads'[j], s', j)
    {
      if j == k {
        PushKeepsList(lists[k], heads[k], s, k, h);
      } else {
        assert LinkedList(lists[j], heads[j], s, j);
        forall i | 0 <= i < |lists[j]|
          ensures s'[lists[j][i]] == s[lists[j][i]]
        {
          assert lists[j][i] != h;
          if heads[k] != Nil {
            assert s[heads[k]].order == k;
          }
        }
        FrameList(lists[j], heads[j], s, s', j);
      }
    }
  }

  /**
   * The headers after `remove_free_block` unlinks h: its predecessor's next
   * skips it and its successor's prev skips it. The header of h itself keeps
   * its old (now stale) links.
   */
  function Spliced(s: seq<Header>, h: nat): (r: seq<Header>)
    requires h < |s|
    requires s[h].prev == Nil || 0 <= s[h].prev < |s|
    requires s[h].next == Nil || 0 <= s[h].next < |s|
    ensures |r| == |s|
    ensures s[h].prev != Nil ==> r[s[h].prev].next == s[h].next
    ensures s[h].next != Nil ==> r[s[h].next].prev == s[h].prev
    ensures forall p :: 0 <= p < |s| && p != s[h].prev && p != s[h].next ==> r[p] == s[p]
  {
    var pr := s[h].prev;
    var nx := s[h].next;
    var s1 := if pr == Nil then s else s[pr := s[pr].(next := nx)];
    if nx == Nil then s1 else s1[nx := s1[nx].(prev := pr)]
  }

  /** Unlinking rewrites links only: every header keeps its used flag and its order. */
  lemma SplicedFields(s: seq<Header>, h: nat, p: nat)
    requires h < |s| && p < |s|
    requires s[h].prev == Nil || 0 <= s[h].prev < |s|
    requires s[h].next == Nil || 0 <= s[h].next < |s|
    ensures Spliced(s, h)[p].used == s[p].used && Spliced(s, h)[p].order == s[p].order
  {
  }

  /** The list head after unlinking h: h's successor when h had no predecessor. */
  function SplicedHead(head: int, s: seq<Header>, h: nat): (r: int)
    requires h < |s|
    ensures r != head ==> s[h].prev == Nil && r == s[h].next
    ensures s[h].prev == Nil ==> r == s[h].next
  {
    if s[h].prev == Nil then s[h].next else head
  }

  /** Unlinking the i-th block of a list rewrites the next of its predecessor and the prev of its successor only. */
  lemma SplicedAt(L: seq<nat>, head: int, s: seq<Header>, k: nat, i: nat, j: nat)
    requires LinkedList(L, head, s, k) && i < |L| && j < |L|
    requires s[L[i]].prev == Nil || 0 <= s[L[i]].prev < |s|
    requires s[L[i]].next == Nil || 0 <= s[L[i]].next < |s|
    ensures Spliced(s, L[i])[L[j]] == if j + 1 == i then s[L[j]].(next := s[L[i]].next)
                                      else if j == i + 1 then s[L[j]].(prev := s[L[i]].prev)
                                      else s[L[j]]
  {
    LinkAt(L, head, s, k, i);
    if j != i {
      assert L[j] != L[i];
    }
    if j + 1 != i && i > 0 {
      assert L[j] != L[i - 1];
    }
    if j != i + 1 && i + 1 < |L| {
      assert L[j] != L[i + 1];
    }
  }

  /** The offsets left after cutting out the i-th one, by position. */
  lemma CutAt(L: seq<nat>, i: nat, j: nat)
    requires i < |L| && j < |L| - 1
    ensures |L[..i] + L[i + 1..]| == |L| - 1
    ensures (L[..i] + L[i + 1..])[j] == if j < i then L[j] else L[j + 1]
  {
  }

  /** After unlinking the i-th block, the remaining neighbours point at each other. */
  lemma SpliceLinks(L: seq<nat>, head: int, s: seq<Header>, k: nat, i: nat, a: nat)
    requires LinkedList(L, head, s, k) && i < |L| && a + 2 < |L|
    requires s[L[i]].prev == Nil || 0 <= s[L[i]].prev < |s|
    requires s[L[i]].next == Nil || 0 <= s[L[i]].next < |s|
    ensures var L', s' := L[..i] + L[i + 1..], Spliced(s, L[i]);
            s'[L'[a]].next == L'[a + 1] && s'[L'[a + 1]].prev == L'[a]
  {
    CutAt(L, i, a);
    CutAt(L, i, a + 1);
    if a + 1 < i {
      LinkAt(L, head, s, k, a);
      SplicedAt(L, head, s, k, i, a);
      SplicedAt(L, head, s, k, i, a + 1);
    } else if a + 1 == i {
      LinkAt(L, head, s, k, a);
      LinkAt(L, head, s, k, i);
      LinkAt(L, head, s, k, i + 1);
      SplicedAt(L, head, s, k, i, a);
      SplicedAt(L, head, s, k, i, i + 1);
    } else {
      LinkAt(L, head, s, k, a + 1);
      SplicedAt(L, head, s, k, i, a + 1);
      SplicedAt(L, head, s, k, i, a + 2);
    }
  }

  /** After unlinking the i-th block, the new first block has no prev and the new last no next. */
  lemma SpliceEnds(L: seq<nat>, head: int, s: seq<Header>, k: nat, i: nat)
    requires LinkedList(L, head, s, k) && i < |L| && 1 < |L|
    requires s[L[i]].prev == Nil || 0 <= s[L[i]].prev < |s|
    requires s[L[i]].next == Nil || 0 <= s[L[i]].next < |s|
    ensures var L', s' := L[..i] + L[i + 1..], Spliced(s, L[i]);
            s'[L'[0]].prev == Nil && s'[L'[|L'| - 1]].next == Nil &&
            SplicedHead(head, s, L[i]) == L'[0]
  {
    LinkAt(L, head, s, k, i);
    CutAt(L, i, 0);
    CutAt(L, i, |L| - 2);
    var f := if i == 0 then 1 else 0;
    LinkAt(L, head, s, k, f);
    SplicedAt(L, head, s, k, i, f);
    var t := if i == |L| - 1 then i - 1 else |L| - 1;
    LinkAt(L, head, s, k, t);
    SplicedAt(L, head, s, k, i, t);
  }

  /** Unlinking the i-th block of a list leaves the list without it, in the same order. */
  lemma SpliceKeepsList(L: seq<nat>, head: int, s: seq<Header>, k: nat, i: nat)
    requires LinkedList(L, head, s, k) && i < |L|
    ensures L[i] < |s|
    ensures s[L[i]].prev == Nil || 0 <= s[L[i]].prev < |s|
    ensures s[L[i]].next == Nil || 0 <= s[L[i]].next < |s|
    ensures LinkedList(L[..i] + L[i + 1..], SplicedHead(head, s, L[i]), Spliced(s, L[i]), k)
  {
    var h := L[i];
    LinkAt(L, head, s, k, i);
    var L' := L[..i] + L[i + 1..];
    var s' := Spliced(s, h);
    forall j | 0 <= j < |L'|
      ensures L'[j] < |s'| && s'[L'[j]].order == k
    {
      CutAt(L, i, j);
      SplicedAt(L, head, s, k, i, if j < i then j else j + 1);
    }
    forall a, b | 0 <= a && b == a + 1 && b < |L'|
      ensures s'[L'[a]].next == L'[b] && s'[L'[b]].prev == L'[a]
    {
      SpliceLinks(L, head, s, k, i, a);
    }
    if 1 < |L| {
      SpliceEnds(L, head, s, k, i);
    } else {
      assert L' == [];
    }
    forall a, b | 0 <= a < b < |L'|
      ensures L'[a] != L'[b]
    {
      CutAt(L, i, a);
      CutAt(L, i, b);
    }
  }

  /** Unlinking a block from the list of order k leaves a list of another order untouched. */
  lemma SpliceElsewhere(L: seq<nat>, head: int, s: seq<Header>, j: nat, h: nat, k: nat)
    requires LinkedList(L, head, s, j) && j != k && h < |s|
    requires s[h].prev == Nil || (0 <= s[h].prev < |s| && s[s[h].prev].order == k)
    requires s[h].next == Nil || (0 <= s[h].next < |s| && s[s[h].next].order == k)
    ensures LinkedList(L, head, Spliced(s, h), j)
  {
    var s' := Spliced(s, h);
    forall a | 0 <= a < |L|
      ensures s'[L[a]] == s[L[a]]
    {
      LinkAt(L, head, s, j, a);
    }
    FrameList(L, head, s, s', j);
  }

  /** remove_free_block keeps every list well linked, with h cut out of the list of order k. */
  lemma SpliceKeepsRegistry(lists: seq<seq<nat>>, heads: seq<int>, s: seq<Header>, k: nat, h: nat)
    requires Registry(lists, heads, s) && k < |lists| && h in lists[k]
    ensures h < |s|
    ensures s[h].prev == Nil || 0 <= s[h].prev < |s|
    ensures s[h].next == Nil || 0 <= s[h].next < |s|
    ensures Registry(lists[k := Remove(lists[k], h)], heads[k := SplicedHead(heads[k], s, h)], Spliced(s, h))
  {
    var L := lists[k];
    assert LinkedList(L, heads[k], s, k);
    var i :| 0 <= i < |L| && L[i] == h;
    SpliceKeepsList(L, heads[k], s, k, i);
    RemoveAt(L, i);
    LinkAt(L, heads[k], s, k, i);
    if i > 0 {
      LinkAt(L, heads[k], s, k, i - 1);
    }
    if i + 1 < |L| {
      LinkAt(L, heads[k], s, k, i + 1);
    }
    var lists' := lists[k := Remove(L, h)];
    var heads' := heads[k := SplicedHead(heads[k], s, h)];
    forall j | 0 <= j < |lists'|
      ensures LinkedList(lists'[j], heads'[j], Spliced(s, h), j)
    {
      if j != k {
        assert LinkedList(lists[j], heads[j], s, j);
        SpliceElsewhere(lists[j], heads[j], s, j, h, k);
      }
    }
  }

  /** Rewriting the header of a block that is in no list leaves every list as it was. */
  lemma WriteOutsideKeepsRegistry(lists: seq<seq<nat>>, heads: seq<int>, s: seq<Header>, x: nat, v: Header)
    requires Registry(lists, heads, s) && x < |s| && !Listed(lists, x)
    ensures Registry(lists, heads, s[x := v])
  {
    forall j | 0 <= j < |lists|
      ensures LinkedList(lists[j], heads[j], s[x := v], j)
    {
      assert LinkedList(lists[j], heads[j], s, j);
      assert x !in lists[j];
      FrameList(lists[j], heads[j], s, s[x := v], j);
    }
  }
}
