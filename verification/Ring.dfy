/** Heads that run round a ring of n slots, the frames the slots hold, and the capture buffers
    that are with the device or with a frame. */
module Ring {
  import opened Arithmetic

  /** The slot of frame k in a ring of n. */
  function Slot(k: nat, n: nat): (r: nat)
    requires n > 0
    ensures r < n
  {
    k % n
  }

  /** head++; head %= n */
  lemma Advance(k: nat, n: nat)
    requires n > 0
    ensures (Slot(k, n) + 1) % n == Slot(k + 1, n)
  {
    var q, r := k / n, k % n;
    if r + 1 < n {
      Remainder(k + 1, n, q, r + 1);
      Remainder(r + 1, n, 0, r + 1);
    } else {
      Remainder(k + 1, n, q + 1, 0);
      Remainder(r + 1, n, 1, 0);
    }
  }

  /** Two numbers less than n apart are in the same slot only if they are equal. */
  lemma Apart(j: nat, k: nat, n: nat)
    requires n > 0 && j < k < j + n
    ensures Slot(j, n) != Slot(k, n)
  {
    var d := k / n - j / n;
    assert k - j == n * d + (Slot(k, n) - Slot(j, n));
    Multiple(n, d);
  }

  // ---------- Rounds ----------

  /** The rounds in which a thread is past a point, of k completed ones and the one it is in. */
  function Rounds(k: nat, past: bool): nat { if past then k + 1 else k }

  /** Frames the overlay holds back. */
  function Held(isFirst: bool): nat { if isFirst then 0 else 1 }

  /** b is the buffer of frame k. */
  predicate IsFrame(frames: seq<nat>, k: nat, b: nat) { k < |frames| && b == frames[k] }

  // ---------- A ring of frames ----------

  /** The last n of the frames stored so far are in their slots. */
  ghost predicate RingHolds(ring: seq<nat>, frames: seq<nat>, stored: nat, n: nat) {
    && n > 0 && |ring| == n && stored <= |frames|
    && forall k :: 0 <= k < stored && stored <= k + n ==> ring[Slot(k, n)] == frames[k]
  }

  /** Storing frame k overwrites the slot of frame k-n only. */
  lemma StoreKeepsRing(ring: seq<nat>, frames: seq<nat>, k: nat, n: nat)
    requires RingHolds(ring, frames, k, n) && k < |frames|
    ensures RingHolds(ring[Slot(k, n) := frames[k]], frames, k + 1, n)
  {
    forall j | 0 <= j < k && k + 1 <= j + n
      ensures Slot(j, n) != Slot(k, n)
    {
      Apart(j, k, n);
    }
  }

  // ---------- Who has which capture buffer ----------

  ghost function Buffers(n: nat): set<nat> {
    if n == 0 then {} else Buffers(n - 1) + {n - 1}
  }

  lemma {:induction false} BufferCount(n: nat)
    ensures |Buffers(n)| == n && forall b :: b in Buffers(n) ==> b < n
  {
    if n > 0 { BufferCount(n - 1); }
  }

  /** The device has exactly the buffers that are not frames in flight, and the frames in
      flight are all different. */
  ghost predicate Owned(driver: set<nat>, frames: seq<nat>, requeues: nat, n: nat) {
    && requeues <= |frames|
    && (forall b :: b in driver ==> b < n)
    && (forall j :: requeues <= j < |frames| ==> frames[j] < n && frames[j] !in driver)
    && (forall i, j :: requeues <= i < j < |frames| ==> frames[i] != frames[j])
    && |driver| + (|frames| - requeues) == n
  }

  lemma DequeueKeepsOwned(driver: set<nat>, frames: seq<nat>, r: nat, n: nat, b: nat)
    requires Owned(driver, frames, r, n) && b in driver
    ensures Owned(driver - {b}, frames + [b], r, n)
  {
  }

  lemma RequeueKeepsOwned(driver: set<nat>, frames: seq<nat>, r: nat, n: nat)
    requires Owned(driver, frames, r, n) && r < |frames|
    ensures Owned(driver + {frames[r]}, frames, r + 1, n)
  {
  }
}
