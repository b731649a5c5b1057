/**
 * The guest-details list and the two ways it changes: it is resized whenever
 * the guest count changes, and one field of one guest is edited in place.
 */
module GuestList {
  import opened Wrappers
  import opened Records

  /** `Math.max(0, Number(count) || 0)`: a count that is not a number, and a negative one, give 0 rows. */
  function GuestSlots(count: Option<int>): nat {
    match count
    case None => 0
    case Some(n) => if n < 0 then 0 else n
  }

  /**
   * The list after resizing to `n` rows: the surviving prefix of the old
   * list, then empty rows up to `n`.
   */
  function Resized(prev: seq<Guest>, n: nat): (next: seq<Guest>)
    ensures |next| == n
    ensures forall j :: 0 <= j < n && j < |prev| ==> next[j] == prev[j]
    ensures forall j :: |prev| <= j < n ==> next[j] == EmptyGuest
  {
    if n <= |prev| then prev[..n] else prev + seq(n - |prev|, _ => EmptyGuest)
  }

  /** The resize effect: `prev.slice(0, n)`, then push empty rows while shorter than `n`. */
  method Resize(prev: seq<Guest>, count: Option<int>) returns (next: seq<Guest>)
    ensures next == Resized(prev, GuestSlots(count))
  {
    var n := GuestSlots(count);
    var kept := if n < |prev| then n else |prev|;
    next := prev[..kept];
    while |next| < n
      invariant kept <= |next| <= n
      invariant next[..kept] == prev[..kept]
      invariant forall j :: kept <= j < |next| ==> next[j] == EmptyGuest
    {
      next := next + [EmptyGuest];
    }
    assert forall j :: 0 <= j < kept ==> next[j] == next[..kept][j];
  }

  /** Resizing to the size the list already has changes nothing, so a repeated resize is a no-op. */
  lemma ResizeIdempotent(prev: seq<Guest>, n: nat)
    ensures Resized(Resized(prev, n), n) == Resized(prev, n)
  {
  }

  /** The list after a run of guest-count edits, each followed by its resize. */
  function ResizeAll(prev: seq<Guest>, counts: seq<Option<int>>): seq<Guest>
    decreases |counts|
  {
    if counts == [] then prev else ResizeAll(Resized(prev, GuestSlots(counts[0])), counts[1..])
  }

  /** How many leading rows of the original list survive a run of resizes: the smallest size on the way. */
  function Survivors(len: nat, counts: seq<Option<int>>): nat
    decreases |counts|
  {
    if counts == [] then len
    else
      var n := GuestSlots(counts[0]);
      Survivors(if n < len then n else len, counts[1..])
  }

  /** The first `kept` rows of `list` are those of `orig` and every later row is empty. */
  ghost predicate KeepsPrefix(list: seq<Guest>, orig: seq<Guest>, kept: nat) {
    kept <= |list| && kept <= |orig|
    && (forall j :: 0 <= j < kept ==> list[j] == orig[j])
    && (forall j :: kept <= j < |list| ==> list[j] == EmptyGuest)
  }

  lemma {:induction false} ResizeAllShape(list: seq<Guest>, orig: seq<Guest>, kept: nat, counts: seq<Option<int>>)
    requires KeepsPrefix(list, orig, kept)
    ensures KeepsPrefix(ResizeAll(list, counts), orig, Survivors(kept, counts))
    ensures |ResizeAll(list, counts)| == if counts == [] then |list| else GuestSlots(counts[|counts| - 1])
    decreases |counts|
  {
    if counts != [] {
      var n := GuestSlots(counts[0]);
      var mid := Resized(list, n);
      var kept' := if n < kept then n else kept;
      assert KeepsPrefix(mid, orig, kept');
      ResizeAllShape(mid, orig, kept', counts[1..]);
      if |counts| > 1 {
        assert counts[1..][|counts[1..]| - 1] == counts[|counts| - 1];
      }
    }
  }

  /**
   * After any run of count edits the list has the size the last count asks
   * for; every row below the smallest size on the way is the original row,
   * and every row at or above it is empty: shrinking and growing back
   * does not bring the dropped guests back.
   */
  lemma ResizeAllKeepsCommonPrefix(prev: seq<Guest>, counts: seq<Option<int>>)
    ensures |ResizeAll(prev, counts)| == if counts == [] then |prev| else GuestSlots(counts[|counts| - 1])
    ensures KeepsPrefix(ResizeAll(prev, counts), prev, Survivors(|prev|, counts))
  {
    ResizeAllShape(prev, prev, |prev|, counts);
  }

  /** `handleGuestChange(i, key, value)`: copy the list and replace field `key` of row `i`. */
  function GuestChanged(list: seq<Guest>, i: nat, key: GuestField, value: string): (r: seq<Guest>)
    requires i < |list|
    ensures |r| == |list|
    ensures r[i].Get(key) == value
    ensures forall other: GuestField :: other != key ==> r[i].Get(other) == list[i].Get(other)
    ensures forall j :: 0 <= j < |list| && j != i ==> r[j] == list[j]
  {
    list[i := list[i].Set(key, value)]
  }

  /** An edit to a row that survives a resize is the same whether it is made before or after the resize. */
  lemma EditCommutesWithResize(list: seq<Guest>, i: nat, key: GuestField, value: string, n: nat)
    requires i < |list| && i < n
    ensures Resized(GuestChanged(list, i, key, value), n) == GuestChanged(Resized(list, n), i, key, value)
  {
  }
}
