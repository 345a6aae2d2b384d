/**
 remove_duplicates: rows sharing an (employee_id, date) pair form a group;
 from each group of two or more rows at most one row is dropped, chosen by a
 two-tier rule (the first row with a missing checkout, otherwise the first row
 that repeats an earlier row on every column but timesheet_id).
 */
module Dedup {
  import opened Wrappers
  import opened Punches

  /** The grouping key of remove_duplicates. */
  datatype GroupKey = GroupKey(employeeId: int, date: Date)

  function KeyOf(p: Punch): GroupKey {
    GroupKey(p.employeeId, p.date)
  }

  /** Equal on every column except timesheet_id. */
  predicate SameExceptId(p: Punch, q: Punch) {
    KeyOf(p) == KeyOf(q) && p.checkin == q.checkin && p.checkout == q.checkout
  }

  /** Row i shares its key with some other row: duplicated(keep=False). */
  predicate InDuplicateGroup(t: seq<Punch>, i: int)
    requires 0 <= i < |t|
  {
    exists j :: 0 <= j < |t| && j != i && KeyOf(t[j]) == KeyOf(t[i])
  }

  /** Row j equals an earlier row of its group on every column but the id:
      duplicated(keep='first') over the group without timesheet_id. */
  predicate RepeatsEarlierRow(t: seq<Punch>, j: int)
    requires 0 <= j < |t|
  {
    exists i :: 0 <= i < j && SameExceptId(t[i], t[j])
  }

  predicate GroupHasNullCheckout(t: seq<Punch>, k: GroupKey) {
    exists i :: 0 <= i < |t| && KeyOf(t[i]) == k && t[i].checkout.None?
  }

  /** The first row of group k among t[..n] whose checkout is missing. */
  function FirstNullCheckout(t: seq<Punch>, k: GroupKey, n: nat): (r: Option<int>)
    requires n <= |t|
    ensures r.Some? ==> 0 <= r.value < n && KeyOf(t[r.value]) == k && t[r.value].checkout.None?
    ensures forall j :: 0 <= j < n && KeyOf(t[j]) == k && t[j].checkout.None? ==> r.Some? && r.value <= j
  {
    if n == 0 then None
    else
      var r := FirstNullCheckout(t, k, n - 1);
      if r.Some? then r
      else if KeyOf(t[n - 1]) == k && t[n - 1].checkout.None? then Some(n - 1)
      else None
  }

  /** The first row of group k among t[..n] that repeats an earlier row. */
  function FirstRepeat(t: seq<Punch>, k: GroupKey, n: nat): (r: Option<int>)
    requires n <= |t|
    ensures r.Some? ==> 0 <= r.value < n && KeyOf(t[r.value]) == k && RepeatsEarlierRow(t, r.value)
    ensures forall j :: 0 <= j < n && KeyOf(t[j]) == k && RepeatsEarlierRow(t, j) ==> r.Some? && r.value <= j
  {
    if n == 0 then None
    else
      var r := FirstRepeat(t, k, n - 1);
      if r.Some? then r
      else if KeyOf(t[n - 1]) == k && RepeatsEarlierRow(t, n - 1) then Some(n - 1)
      else None
  }

  /** The row that one visit of group k marks for deletion, if any. */
  function GroupVictim(t: seq<Punch>, k: GroupKey): Option<int> {
    var nullCheckout := FirstNullCheckout(t, k, |t|);
    if nullCheckout.Some? then nullCheckout else FirstRepeat(t, k, |t|)
  }

  /** Row j is dropped: its group has two or more rows and j is the group's victim. */
  predicate Removed(t: seq<Punch>, j: int)
    requires 0 <= j < |t|
  {
    InDuplicateGroup(t, j) && GroupVictim(t, KeyOf(t[j])) == Some(j)
  }

  function RemovedIndices(t: seq<Punch>): set<int> {
    set j | 0 <= j < |t| && Removed(t, j)
  }

  /** The positions below n that are not in marked, in ascending order. */
  function KeptIndices(n: nat, marked: set<int>): (ks: seq<int>)
    ensures forall a :: 0 <= a < |ks| ==> 0 <= ks[a] < n && ks[a] !in marked
    ensures forall a, b :: 0 <= a < b < |ks| ==> ks[a] < ks[b]
    ensures forall j :: 0 <= j < n && j !in marked ==> j in ks
  {
    if n == 0 then []
    else KeptIndices(n - 1, marked) + (if n - 1 in marked then [] else [n - 1])
  }

  /** DataFrame.drop(index=marked): the unmarked rows, in their original order. */
  function DropIndices(t: seq<Punch>, marked: set<int>): (r: seq<Punch>)
    ensures |r| == |KeptIndices(|t|, marked)|
  {
    if |t| == 0 then []
    else DropIndices(t[..|t| - 1], marked) + (if |t| - 1 in marked then [] else [t[|t| - 1]])
  }

  /** Row m of the dropped table is row KeptIndices[m] of the original. */
  lemma {:induction false} DropIndicesKeepsUnmarked(t: seq<Punch>, marked: set<int>)
    ensures forall m :: 0 <= m < |DropIndices(t, marked)| ==>
      DropIndices(t, marked)[m] == t[KeptIndices(|t|, marked)[m]]
  {
    if |t| > 0 {
      var init := t[..|t| - 1];
      DropIndicesKeepsUnmarked(init, marked);
      var rest := DropIndices(init, marked);
      var ks := KeptIndices(|init|, marked);
      assert KeptIndices(|t|, marked) == ks + (if |t| - 1 in marked then [] else [|t| - 1]);
      assert forall m :: 0 <= m < |rest| ==> init[ks[m]] == t[ks[m]];
    }
  }

  /** The table remove_duplicates returns. */
  function Deduplicated(t: seq<Punch>): seq<Punch> {
    DropIndices(t, RemovedIndices(t))
  }

  /** The index of `duplicates`: the rows of t[..n] in a group of two or more. */
  function DuplicateRows(t: seq<Punch>, n: nat): (d: seq<int>)
    requires n <= |t|
    ensures forall a :: 0 <= a < |d| ==> 0 <= d[a] < n && InDuplicateGroup(t, d[a])
    ensures forall i :: 0 <= i < n && InDuplicateGroup(t, i) ==> i in d
  {
    if n == 0 then []
    else DuplicateRows(t, n - 1) + (if InDuplicateGroup(t, n - 1) then [n - 1] else [])
  }

  predicate VictimMarked(t: seq<Punch>, k: GroupKey, marks: seq<int>) {
    var v := GroupVictim(t, k);
    v.Some? ==> v.value in marks
  }

  /** Once every duplicated row has had its group's victim marked, the marks
      are exactly the removed rows. */
  lemma MarksAreRemovedIndices(t: seq<Punch>, duplicates: seq<int>, marks: seq<int>)
    requires duplicates == DuplicateRows(t, |t|)
    requires forall j :: j in marks ==> 0 <= j < |t| && Removed(t, j)
    requires forall a :: 0 <= a < |duplicates| ==> VictimMarked(t, KeyOf(t[duplicates[a]]), marks)
    ensures (set j | j in marks) == RemovedIndices(t)
  {
    forall j | 0 <= j < |t| && Removed(t, j)
      ensures j in marks
    {
      var a :| 0 <= a < |duplicates| && duplicates[a] == j;
      assert VictimMarked(t, KeyOf(t[duplicates[a]]), marks);
    }
  }

  /** The loop of remove_duplicates: every duplicated row re-examines its whole
      group and appends the group's victim; the drop then removes each marked
      index once. */
  method RemoveDuplicates(timesheets: seq<Punch>) returns (cleaned: seq<Punch>)
    ensures cleaned == Deduplicated(timesheets)
  {
    var duplicates := DuplicateRows(timesheets, |timesheets|);
    var indexToDelete: seq<int> := [];
    var n := 0;
    while n < |duplicates|
      invariant 0 <= n <= |duplicates|
      invariant forall j :: j in indexToDelete ==> 0 <= j < |timesheets| && Removed(timesheets, j)
      invariant forall a :: 0 <= a < n ==> VictimMarked(timesheets, KeyOf(timesheets[duplicates[a]]), indexToDelete)
    {
      var i := duplicates[n];
      var k := KeyOf(timesheets[i]);
      var nullCheckout := FirstNullCheckout(timesheets, k, |timesheets|);
      if nullCheckout.Some? {
        var j := nullCheckout.value;
        assert j != i ==> KeyOf(timesheets[i]) == KeyOf(timesheets[j]);
        indexToDelete := indexToDelete + [j];
      } else {
        var duplicateIndex := FirstRepeat(timesheets, k, |timesheets|);
        if duplicateIndex.Some? {
          var j := duplicateIndex.value;
          assert j != i ==> KeyOf(timesheets[i]) == KeyOf(timesheets[j]);
          indexToDelete := indexToDelete + [j];
        }
      }
      n := n + 1;
    }
    var marked := set j | j in indexToDelete;
    MarksAreRemovedIndices(timesheets, duplicates, indexToDelete);
    cleaned := DropIndices(timesheets, marked);
  }

  // ----- How many rows of a group survive -----

  function CountKey(t: seq<Punch>, k: GroupKey): nat {
    if |t| == 0 then 0
    else CountKey(t[..|t| - 1], k) + (if KeyOf(t[|t| - 1]) == k then 1 else 0)
  }

  /** The number of positions of t in marked whose row has key k. */
  function CountMarked(t: seq<Punch>, marked: set<int>, k: GroupKey): nat {
    if |t| == 0 then 0
    else CountMarked(t[..|t| - 1], marked, k) + (if |t| - 1 in marked && KeyOf(t[|t| - 1]) == k then 1 else 0)
  }

  lemma {:induction false} DropCount(t: seq<Punch>, marked: set<int>, k: GroupKey)
    ensures CountKey(DropIndices(t, marked), k) + CountMarked(t, marked, k) == CountKey(t, k)
  {
    if |t| > 0 {
      var init := t[..|t| - 1];
      DropCount(init, marked, k);
      var d := DropIndices(init, marked);
      if |t| - 1 !in marked {
        assert (d + [t[|t| - 1]])[..|d|] == d;
      } else {
        assert d + [] == d;
      }
    }
  }

  lemma {:induction false} CountMarkedAtMostOne(t: seq<Punch>, marked: set<int>, k: GroupKey, v: int)
    requires forall j :: 0 <= j < |t| && j in marked && KeyOf(t[j]) == k ==> j == v
    ensures CountMarked(t, marked, k) <= (if 0 <= v < |t| then 1 else 0)
  {
    if |t| > 0 {
      var init := t[..|t| - 1];
      CountMarkedAtMostOne(init, marked, k, v);
    }
  }

  lemma {:induction false} CountKeyPrefix(t: seq<Punch>, n: nat, k: GroupKey)
    requires n <= |t|
    ensures CountKey(t[..n], k) <= CountKey(t, k)
  {
    if n < |t| {
      CountKeyPrefix(t[..|t| - 1], n, k);
      assert t[..|t| - 1][..n] == t[..n];
    } else {
      assert t[..n] == t;
    }
  }

  lemma CountKeyTwoRows(t: seq<Punch>, i: int, j: int, k: GroupKey)
    requires 0 <= i < j < |t| && KeyOf(t[i]) == k && KeyOf(t[j]) == k
    ensures CountKey(t, k) >= 2
  {
    assert t[..i + 1][..i] == t[..i];
    assert t[..j + 1][..j] == t[..j];
    assert t[..j][..i + 1] == t[..i + 1];
    CountKeyPrefix(t[..j], i + 1, k);
    CountKeyPrefix(t, j + 1, k);
  }

  /** No group loses more than one row, and a group of one row loses none. */
  lemma GroupLosesAtMostOneRow(t: seq<Punch>, k: GroupKey)
    ensures CountKey(t, k) - 1 <= CountKey(Deduplicated(t), k) <= CountKey(t, k)
    ensures CountKey(t, k) <= 1 ==> CountKey(Deduplicated(t), k) == CountKey(t, k)
  {
    var removed := RemovedIndices(t);
    DropCount(t, removed, k);
    var victim := GroupVictim(t, k);
    CountMarkedAtMostOne(t, removed, k, if victim.Some? then victim.value else -1);
    if CountKey(t, k) <= 1 {
      forall j | 0 <= j < |t| && j in removed && KeyOf(t[j]) == k
        ensures false
      {
        var w :| 0 <= w < |t| && w != j && KeyOf(t[w]) == KeyOf(t[j]);
        if w < j { CountKeyTwoRows(t, w, j, k); } else { CountKeyTwoRows(t, j, w, k); }
      }
      CountMarkedAtMostOne(t, removed, k, -1);
    }
  }

  /** Which row of a group is dropped: the first null-checkout row if there is
      one, otherwise the first row repeating an earlier one, and only in a
      group of two or more rows. */
  lemma RemovedRowChoice(t: seq<Punch>, j: int)
    requires 0 <= j < |t|
    ensures Removed(t, j) <==>
      InDuplicateGroup(t, j) &&
      (if GroupHasNullCheckout(t, KeyOf(t[j])) then
         t[j].checkout.None? &&
         forall i :: 0 <= i < j && KeyOf(t[i]) == KeyOf(t[j]) ==> t[i].checkout.Some?
       else
         RepeatsEarlierRow(t, j) &&
         forall i :: 0 <= i < j && KeyOf(t[i]) == KeyOf(t[j]) ==> !RepeatsEarlierRow(t, i))
  {
    var k := KeyOf(t[j]);
    var nullCheckout := FirstNullCheckout(t, k, |t|);
    if GroupHasNullCheckout(t, k) {
      var w :| 0 <= w < |t| && KeyOf(t[w]) == k && t[w].checkout.None?;
      assert nullCheckout.Some?;
    } else {
      assert nullCheckout.None?;
    }
  }

  /** Two punches of one employee and date, the second without checkout: the
      second is dropped and the first is kept. */
  lemma NullCheckoutPairLeavesOne(a: Punch, b: Punch)
    requires KeyOf(a) == KeyOf(b) && a.checkout.Some? && b.checkout.None?
    ensures Deduplicated([a, b]) == [a]
  {
    var t := [a, b];
    assert InDuplicateGroup(t, 0) && InDuplicateGroup(t, 1);
    assert FirstNullCheckout(t, KeyOf(b), 2) == Some(1);
    assert !Removed(t, 0) && Removed(t, 1);
    assert RemovedIndices(t) == {1};
    assert t[..1] == [a];
    assert [a][..0] == [];
    assert DropIndices([a], {1}) == [a];
    assert DropIndices(t, {1}) == DropIndices([a], {1});
  }

  /** The same pair in the other order: the first punch, without checkout,
      is dropped and the second is kept. */
  lemma NullCheckoutFirstLeavesOne(a: Punch, b: Punch)
    requires KeyOf(a) == KeyOf(b) && a.checkout.Some? && b.checkout.None?
    ensures Deduplicated([b, a]) == [a]
  {
    var t := [b, a];
    assert InDuplicateGroup(t, 0) && InDuplicateGroup(t, 1);
    assert FirstNullCheckout(t, KeyOf(b), 1) == Some(0);
    assert FirstNullCheckout(t, KeyOf(b), 2) == Some(0);
    assert Removed(t, 0) && !Removed(t, 1);
    assert RemovedIndices(t) == {0};
    assert t[..1] == [b];
    assert [b][..0] == [];
    assert DropIndices([b], {0}) == [];
    assert DropIndices(t, {0}) == DropIndices([b], {0}) + [a];
  }

  /** A two-row group whose rows have checkouts and differ in their times is
      left intact: the group keeps both rows. */
  lemma ConflictingPairSurvives(a: Punch, b: Punch)
    requires KeyOf(a) == KeyOf(b) && a.checkout.Some? && b.checkout.Some?
    requires a.checkin != b.checkin || a.checkout != b.checkout
    ensures Deduplicated([a, b]) == [a, b]
  {
    var t := [a, b];
    assert !RepeatsEarlierRow(t, 0);
    assert !RepeatsEarlierRow(t, 1);
    assert FirstNullCheckout(t, KeyOf(a), 2).None?;
    assert FirstRepeat(t, KeyOf(a), 2).None?;
    assert RemovedIndices(t) == {};
    assert t[..1] == [a];
    assert [a][..0] == [];
    assert DropIndices([a], {}) == [a];
    assert DropIndices(t, {}) == DropIndices([a], {}) + [b];
  }
}
