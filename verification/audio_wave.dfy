/**
 * The audio wave of src/audio.rs: a list of `ShaperNode` control points kept in
 * non-decreasing order of `wave_pos`, and `AudioState::add_node_to_wave`, the linear
 * scan that inserts a new node before the first strictly greater position.
 */
module ShaperWave {

  /** One control point: a position along the wave and the amplitude there. */
  datatype ShaperNode = ShaperNode(wavePos: real, amplitude: real)

  /** Positions never decrease along the list (equal positions are allowed). */
  predicate Sorted(wave: seq<ShaperNode>)
  {
    forall i, j :: 0 <= i < j < |wave| ==> wave[i].wavePos <= wave[j].wavePos
  }

  /** Some node lies strictly after `pos`. */
  predicate HasGreater(wave: seq<ShaperNode>, pos: real)
  {
    exists j :: 0 <= j < |wave| && pos < wave[j].wavePos
  }

  /**
   * The index the scan stops at: the first node whose position is strictly greater
   * than `pos`, or `|wave|` when there is none.
   */
  function InsertionIndex(wave: seq<ShaperNode>, pos: real): (i: nat)
    ensures i <= |wave|
    ensures forall j :: 0 <= j < i ==> wave[j].wavePos <= pos
    ensures i < |wave| ==> pos < wave[i].wavePos
  {
    if |wave| == 0 then 0
    else if pos < wave[0].wavePos then 0
    else 1 + InsertionIndex(wave[1..], pos)
  }

  /**
   * `add_node_to_wave`: insert before the first strictly greater position; when no
   * position is greater the node is dropped. Duplicates are not rejected.
   */
  function AddNodeToWave(wave: seq<ShaperNode>, pos: real, amp: real): (r: seq<ShaperNode>)
    ensures HasGreater(wave, pos) <==> |r| == |wave| + 1
    ensures !HasGreater(wave, pos) ==> r == wave
    ensures HasGreater(wave, pos) ==>
              var k := InsertionIndex(wave, pos);
              r[k] == ShaperNode(pos, amp) && r[..k] == wave[..k] && r[k + 1..] == wave[k..]
    ensures HasGreater(wave, pos) ==> multiset(r) == multiset(wave) + multiset{ShaperNode(pos, amp)}
  {
    var k := InsertionIndex(wave, pos);
    if k < |wave| then
      assert wave == wave[..k] + wave[k..];
      wave[..k] + [ShaperNode(pos, amp)] + wave[k..]
    else
      wave
  }

  /** Inserting keeps the wave sorted. */
  lemma {:induction false} AddNodeKeepsSorted(wave: seq<ShaperNode>, pos: real, amp: real)
    requires Sorted(wave)
    ensures Sorted(AddNodeToWave(wave, pos, amp))
  {
    var r := AddNodeToWave(wave, pos, amp);
    if HasGreater(wave, pos) {
      var k := InsertionIndex(wave, pos);
      forall i, j | 0 <= i < j < |r|
        ensures r[i].wavePos <= r[j].wavePos
      {
        var pi := if i < k then wave[i].wavePos else if i == k then pos else wave[i - 1].wavePos;
        var pj := if j < k then wave[j].wavePos else if j == k then pos else wave[j - 1].wavePos;
        assert r[i].wavePos == pi by { NodeAt(wave, pos, amp, i); }
        assert r[j].wavePos == pj by { NodeAt(wave, pos, amp, j); }
      }
    }
  }

  /** Where each node of the original lands after an insertion. */
  lemma NodeAt(wave: seq<ShaperNode>, pos: real, amp: real, i: nat)
    requires HasGreater(wave, pos) && i <= |wave|
    ensures var k := InsertionIndex(wave, pos);
            var r := AddNodeToWave(wave, pos, amp);
            r[i] == (if i < k then wave[i] else if i == k then ShaperNode(pos, amp) else wave[i - 1])
  {
    var k := InsertionIndex(wave, pos);
    var r := AddNodeToWave(wave, pos, amp);
    if i < k {
      assert r[i] == r[..k][i];
    } else if i > k {
      assert r[i] == r[k + 1..][i - k - 1];
    }
  }

  /**
   * A node whose position equals one already present lands after every existing
   * node at that position.
   */
  lemma EqualPositionLandsAfter(wave: seq<ShaperNode>, pos: real, amp: real, j: nat)
    requires Sorted(wave) && j < |wave| && wave[j].wavePos == pos && HasGreater(wave, pos)
    ensures j < InsertionIndex(wave, pos)
    ensures AddNodeToWave(wave, pos, amp)[j] == wave[j]
  {
    NodeAt(wave, pos, amp, j);
  }

  /** The scan is the unique sorted-insertion point: before it positions are <= pos, after it >. */
  lemma {:induction false} InsertionIndexUnique(wave: seq<ShaperNode>, pos: real, k: nat)
    requires Sorted(wave) && k <= |wave|
    requires forall j :: 0 <= j < k ==> wave[j].wavePos <= pos
    requires forall j :: k <= j < |wave| ==> pos < wave[j].wavePos
    ensures InsertionIndex(wave, pos) == k
  {
    if |wave| > 0 {
      if k == 0 {
        assert pos < wave[0].wavePos;
      } else {
        assert wave[0].wavePos <= pos;
        InsertionIndexUnique(wave[1..], pos, k - 1);
      }
    }
  }
}
