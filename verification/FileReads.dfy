/** The reads of one poll of a file: how many bytes each gets, and whether one of them fails. */
module FileReads {
  import opened BoundedTail
  import opened Outcomes

  const CHUNK: nat := 8 * 1024

  /** How the reads of one poll go, one after the other: one that does not fail gets some bytes, at most as many
      as are given. A failing seek is a first read that fails. */
  type Reads = nat -> Option<nat>

  /** The bytes of one read: none at the end of the file, otherwise at least one and at most a chunk. */
  function ReadSize(most: nat, left: nat): (n: nat)
    ensures n <= left && n <= CHUNK && (left > 0 ==> n > 0)
  {
    var n := if most == 0 then 1 else most;
    if n <= left && n <= CHUNK then n else if left <= CHUNK then left else CHUNK
  }

  /** None of the reads made fails: from the k-th on, with that many bytes left, up to the one that gets nothing. */
  ghost predicate AllSucceed(outcomes: Reads, k: nat, left: nat)
    decreases left
  {
    outcomes(k).Some? && (left > 0 ==> AllSucceed(outcomes, k + 1, left - ReadSize(outcomes(k).value, left)))
  }

  /** There are at most as many as bytes left, and one more. */
  lemma {:induction false} ReadsMade(outcomes: Reads, k: nat, left: nat)
    ensures outcomes(k).None? ==> !AllSucceed(outcomes, k, left)
    ensures !AllSucceed(outcomes, k, left) ==> exists j :: k <= j <= k + left && outcomes(j).None?
    decreases left
  {
    if outcomes(k).Some? && left > 0 {
      ReadsMade(outcomes, k + 1, left - ReadSize(outcomes(k).value, left));
    }
  }

  function Left(text: seq<byte>, offset: nat): nat {
    if offset < |text| then |text| - offset else 0
  }

  function Between(text: seq<byte>, from: nat, to: nat): seq<byte> {
    if from <= to <= |text| then text[from..to] else []
  }

  /** The bytes got are those between the two places. */
  ghost predicate HasRead(text: seq<byte>, from: nat, to: nat, read: seq<byte>) {
    && |read| == to - from && (|read| > 0 ==> to <= |text|)
    && forall i :: 0 <= i < |read| && from + i < |text| ==> read[i] == text[from + i]
  }

  /** The poll goes on as well as from its start. */
  ghost predicate SameFate(outcomes: Reads, start: nat, k: nat, left: nat) {
    AllSucceed(outcomes, 0, start) <==> AllSucceed(outcomes, k, left)
  }

  /** A poll that started at `from` stands at `offset`, after k reads that got `read` and of which none failed. */
  ghost predicate Reading(text: seq<byte>, outcomes: Reads, from: nat, k: nat, offset: nat, read: seq<byte>) {
    && from <= offset && (offset == from || offset <= |text|)
    && HasRead(text, from, offset, read)
    && SameFate(outcomes, Left(text, from), k, Left(text, offset))
  }

  lemma ReadingStarts(text: seq<byte>, outcomes: Reads, from: nat)
    ensures Reading(text, outcomes, from, 0, from, [])
  {
  }

  lemma ReadingNext(text: seq<byte>, outcomes: Reads, from: nat, k: nat, offset: nat, read: seq<byte>, n: nat)
    requires Reading(text, outcomes, from, k, offset, read)
    requires outcomes(k).Some? && n == ReadSize(outcomes(k).value, Left(text, offset)) && n > 0
    ensures offset + n <= |text| && |text[offset..offset + n]| == n && Left(text, offset + n) < Left(text, offset)
    ensures Reading(text, outcomes, from, k + 1, offset + n, read + text[offset..offset + n])
  {
  }

  lemma ReadingEnds(text: seq<byte>, outcomes: Reads, from: nat, k: nat, offset: nat, read: seq<byte>)
    requires Reading(text, outcomes, from, k, offset, read)
    requires outcomes(k).None? || ReadSize(outcomes(k).value, Left(text, offset)) == 0
    ensures offset == from + |read| && read == Between(text, from, offset)
    ensures AllSucceed(outcomes, 0, Left(text, from)) <==> outcomes(k).Some?
    ensures outcomes(k).Some? ==> Left(text, offset) == 0
  {
  }
}
