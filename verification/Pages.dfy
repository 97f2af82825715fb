/** The replies that a SCAN loop gets, and what they hand to its body. */
module Pages {

  /** One reply, with what it returned. A loop ends on a failed one, and also when no reply is left. */
  datatype Page<T> = Failed | Page(cursor: nat, items: seq<T>)

  /** Everything handed to the loop body from reply `n` on, in order. */
  function ScannedFrom<T>(replies: seq<Page<T>>, n: nat): seq<T>
    decreases |replies| - n
  {
    if n >= |replies| || replies[n].Failed? then []
    else if replies[n].cursor == 0 then replies[n].items
    else replies[n].items + ScannedFrom(replies, n + 1)
  }

  function Scanned<T>(replies: seq<Page<T>>): seq<T> { ScannedFrom(replies, 0) }

  /** The loop gets as far as reply `k`: it is a page, and so are all before it, with cursors that go on. */
  ghost predicate Reached<T>(replies: seq<Page<T>>, k: nat) {
    && k < |replies| && replies[k].Page?
    && forall j: nat | j < k :: replies[j].Page? && replies[j].cursor != 0
  }

  /** How much the replies before `k` returned. */
  ghost function Offset<T>(replies: seq<Page<T>>, k: nat): nat
    requires k <= |replies|
  {
    if k == 0 then 0 else Offset(replies, k - 1) + if replies[k - 1].Page? then |replies[k - 1].items| else 0
  }

  lemma {:induction false} PageInPlaceFrom<T>(replies: seq<Page<T>>, n: nat, k: nat)
    requires n <= k && Reached(replies, k)
    ensures Offset(replies, n) <= Offset(replies, k)
    ensures var at, items := Offset(replies, k) - Offset(replies, n), replies[k].items;
      && at + |items| <= |ScannedFrom(replies, n)|
      && ScannedFrom(replies, n)[at..at + |items|] == items
    decreases k - n
  {
    if n < k {
      PageInPlaceFrom(replies, n + 1, k);
      var at, later := Offset(replies, k) - Offset(replies, n + 1), ScannedFrom(replies, n + 1);
      var all, shift := ScannedFrom(replies, n), |replies[n].items|;
      assert all == replies[n].items + later;
      assert all[shift + at..shift + at + |replies[k].items|] == later[at..at + |replies[k].items|];
    }
  }

  /** Every page that the loop reaches is handed on whole, right behind those before it. */
  lemma PageInPlace<T>(replies: seq<Page<T>>, k: nat)
    requires Reached(replies, k)
    ensures var at, items := Offset(replies, k), replies[k].items;
      at + |items| <= |Scanned(replies)| && Scanned(replies)[at..at + |items|] == items
  {
    PageInPlaceFrom(replies, 0, k);
  }

  lemma {:induction false} NothingElseFrom<T>(replies: seq<Page<T>>, n: nat, k: nat)
    requires n < k <= |replies| && Reached(replies, k - 1) && !Reached(replies, k)
    ensures |ScannedFrom(replies, n)| == Offset(replies, k) - Offset(replies, n)
    decreases k - n
  {
    if n + 1 < k {
      NothingElseFrom(replies, n + 1, k);
    } else if replies[n].cursor != 0 {
      assert ScannedFrom(replies, k) == [];
    }
  }

  /** And nothing else is: the loop ends before the first reply that it does not reach. */
  lemma NothingElse<T>(replies: seq<Page<T>>, k: nat)
    requires k <= |replies| && !Reached(replies, k) && (k > 0 ==> Reached(replies, k - 1))
    ensures |Scanned(replies)| == Offset(replies, k)
  {
    if k > 0 {
      NothingElseFrom(replies, 0, k);
    }
  }

  lemma {:induction false} ScannedMembersFrom<T>(replies: seq<Page<T>>, n: nat, item: T)
    requires forall j: nat | j < n :: j < |replies| && replies[j].Page? && replies[j].cursor != 0
    ensures item in ScannedFrom(replies, n) <==>
      exists k: nat :: n <= k && Reached(replies, k) && item in replies[k].items
    decreases |replies| - n
  {
    if Reached(replies, n) {
      if replies[n].cursor == 0 {
        assert forall k: nat :: n < k ==> !Reached(replies, k);
      } else {
        ScannedMembersFrom(replies, n + 1, item);
      }
    } else {
      assert forall k: nat :: n <= k ==> !Reached(replies, k);
    }
  }

  /** What the loop body gets is what some reached page returned. */
  lemma ScannedMembers<T>(replies: seq<Page<T>>, item: T)
    ensures item in Scanned(replies) <==> exists k: nat :: Reached(replies, k) && item in replies[k].items
  {
    ScannedMembersFrom(replies, 0, item);
  }
}
