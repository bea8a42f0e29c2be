// Searching a file for several byte strings in one pass with a bounded buffer:
// findAny of src/controllers/proc_files.cpp.

module StreamSearch {
  import opened Basics

  const CHUNK_BYTES: nat := 0x1_0000

  // ------------------------------------------------------------- what is meant

  predicate At(text: seq<byte>, needle: seq<byte>, k: int) {
    0 <= k <= |text| - |needle| && text[k..k + |needle|] == needle
  }

  ghost predicate Occurs(needle: seq<byte>, text: seq<byte>) {
    exists k :: At(text, needle, k)
  }

  function Bit(i: nat): bv32
    requires i < 32
  {
    (1 as bv32) << i
  }

  function Or(a: bv32, b: bv32): bv32 {
    a | b
  }

  predicate Meets(a: bv32, b: bv32) {
    a & b != 0
  }

  function BitIf(condition: bool, i: nat): bv32
    requires i < 32
  {
    if condition then Bit(i) else 0
  }

  // The word a search of the whole text sets for the first n needles.
  ghost function Mask(needles: seq<seq<byte>>, text: seq<byte>, n: nat): bv32
    requires n <= |needles| <= 32
  {
    if n == 0 then 0
    else Or(Mask(needles, text, n - 1), BitIf(Occurs(needles[n - 1], text), n - 1))
  }

  ghost function Joined(chunks: seq<seq<byte>>): seq<byte> {
    if chunks == [] then [] else Joined(chunks[..|chunks| - 1]) + chunks[|chunks| - 1]
  }

  // The last n bytes.
  function Tail(text: seq<byte>, n: nat): seq<byte>
    requires n <= |text|
  {
    text[|text| - n..]
  }

  lemma BitsDiffer(i: nat, j: nat)
    requires i < 32 && j < 32
    ensures Meets(Bit(i), Bit(j)) <==> i == j
  {
  }

  lemma OrMeets(a: bv32, b: bv32, c: bv32)
    ensures Meets(Or(a, b), c) <==> Meets(a, c) || Meets(b, c)
    ensures !Meets(0, c)
  {
    assert (a | b) & c == (a & c) | (b & c);
    OrZero(a & c, b & c);
  }

  lemma OrZero(a: bv32, b: bv32)
    ensures a | b == 0 <==> a == 0 && b == 0
  {
  }

  lemma BitAdded(word: bv32, i: nat, j: nat, condition: bool)
    requires i < 32 && j < 32
    ensures Meets(Or(word, BitIf(condition, i)), Bit(j)) <==> Meets(word, Bit(j)) || (condition && i == j)
  {
    hide Bit, Or, Meets;
    BitsDiffer(i, j);
    OrMeets(word, BitIf(condition, i), Bit(j));
  }

  lemma OrLaws(a: bv32, b: bv32, c: bv32, d: bv32)
    ensures Or(a, 0) == a && Or(0, a) == a
    ensures Or(Or(a, b), c) == Or(a, Or(b, c))
    ensures Or(Or(a, b), Or(c, d)) == Or(Or(a, c), Or(b, d))
  {
  }

  lemma OrBits(i: nat, p: bool, q: bool)
    requires i < 32
    ensures BitIf(p || q, i) == Or(BitIf(p, i), BitIf(q, i))
  {
    hide Bit, Or;
    OrSelf(Bit(i));
  }

  lemma OrSelf(a: bv32)
    ensures Or(a, a) == a && Or(a, 0) == a && Or(0, a) == a && Or(0, 0) == 0
  {
  }

  lemma {:induction false} MaskMeaning(needles: seq<seq<byte>>, text: seq<byte>, n: nat, j: nat)
    requires n <= |needles| <= 32 && j < 32
    ensures Meets(Mask(needles, text, n), Bit(j)) <==> j < n && Occurs(needles[j], text)
  {
    hide Occurs, Bit, BitIf, Or, Meets;
    if n == 0 {
      OrMeets(0, 0, Bit(j));
    } else {
      MaskMeaning(needles, text, n - 1, j);
      BitAdded(Mask(needles, text, n - 1), n - 1, j, Occurs(needles[n - 1], text));
    }
  }

  // A needle at most one byte longer than the overlap occurs in the longer text exactly when
  // it occurred before or occurs in the carried tail followed by the fresh bytes.
  lemma OccursAcross(needle: seq<byte>, seen: seq<byte>, arrived: seq<byte>, carry: nat)
    requires carry <= |seen| && (carry == |seen| || |needle| - 1 <= carry)
    ensures Occurs(needle, seen + arrived) <==>
              Occurs(needle, seen) || Occurs(needle, Tail(seen, carry) + arrived)
  {
    var text, window, skipped := seen + arrived, Tail(seen, carry) + arrived, |seen| - carry;
    assert window == text[skipped..];
    forall k | At(text, needle, k)
      ensures Occurs(needle, seen) || Occurs(needle, window)
    {
      if k + |needle| <= |seen| {
        AtShifted(text, seen, 0, needle, k);
      } else {
        AtShifted(text, window, skipped, needle, k - skipped);
      }
    }
    forall k | At(seen, needle, k)
      ensures Occurs(needle, text)
    {
      AtShifted(text, seen, 0, needle, k);
    }
    forall k | At(window, needle, k)
      ensures Occurs(needle, text)
    {
      AtShifted(text, window, skipped, needle, k);
    }
  }

  // Part of a text, starting `skipped` bytes in, holds a needle where the text holds it.
  lemma AtShifted(text: seq<byte>, part: seq<byte>, skipped: nat, needle: seq<byte>, k: int)
    requires skipped + |part| <= |text| && part == text[skipped..skipped + |part|]
    requires 0 <= k <= |part| - |needle|
    ensures At(part, needle, k) <==> At(text, needle, skipped + k)
  {
    var here, there := part[k..k + |needle|], text[skipped + k..skipped + k + |needle|];
    assert forall i :: 0 <= i < |needle| ==> here[i] == part[k + i] && there[i] == text[skipped + (k + i)];
    assert here == there;
  }

  ghost predicate Covers(needles: seq<seq<byte>>, overlap: nat) {
    forall needle :: needle in needles ==> |needle| - 1 <= overlap
  }

  lemma {:induction false} MaskAcross(needles: seq<seq<byte>>, seen: seq<byte>, arrived: seq<byte>, carry: nat, n: nat)
    requires n <= |needles| <= 32
    requires carry <= |seen| && (carry == |seen| || Covers(needles, carry))
    ensures Mask(needles, seen + arrived, n) ==
            Or(Mask(needles, seen, n), Mask(needles, Tail(seen, carry) + arrived, n))
  {
    hide Occurs, Bit, BitIf, Or, Tail;
    if n == 0 {
      OrLaws(0, 0, 0, 0);
    } else {
      MaskAcross(needles, seen, arrived, carry, n - 1);
      assert needles[n - 1] in needles;
      OccursAcross(needles[n - 1], seen, arrived, carry);
      var window := Tail(seen, carry) + arrived;
      var p, q := Occurs(needles[n - 1], seen), Occurs(needles[n - 1], window);
      OrBits(n - 1, p, q);
      OrLaws(Mask(needles, seen, n - 1), Mask(needles, window, n - 1), BitIf(p, n - 1), BitIf(q, n - 1));
    }
  }

  // ----------------------------------------------------------- the environment

  // What one read() system call may do: be interrupted by a signal, fail, or deliver up to a
  // number of bytes; none at the end of the file.
  datatype Answer = Signal | Failure | Delivers(limit: nat)

  // Signals are retried away.
  function Awake(answers: seq<Answer>): seq<Answer> {
    if answers != [] && answers[0].Signal? then Awake(answers[1..]) else answers
  }

  // What a read returns for its first real answer: nothing once the script has run out.
  function Got(answers: seq<Answer>, size: nat, left: nat): int {
    if answers == [] || answers[0].Signal? then 0
    else if answers[0].Failure? then -1
    else Min(Min(answers[0].limit, size), left)
  }

  // A read retries as long as signals interrupt it and then gives what there is: nothing at the
  // end, and otherwise as much as is asked for, left and offered.
  lemma ReadMeaning(answers: seq<Answer>, size: nat, left: nat) returns (n: nat)
    ensures n <= |answers| && Awake(answers) == answers[n..] && forall i :: 0 <= i < n ==> answers[i].Signal?
    ensures n < |answers| ==> !answers[n].Signal?
    ensures n == |answers| ==> Got(Awake(answers), size, left) == 0
    ensures n < |answers| && answers[n].Failure? ==> Got(Awake(answers), size, left) == -1
    ensures n < |answers| && answers[n].Delivers? ==>
      var got := Got(Awake(answers), size, left);
      && 0 <= got <= size && got <= left && got <= answers[n].limit
      && (got == size || got == left || got == answers[n].limit)
  {
    n := 0;
    if answers != [] && answers[0].Signal? {
      n := ReadMeaning(answers[1..], size, left);
      n := n + 1;
    }
  }

  class Descriptor {
    const content: seq<byte>
    var position: nat
    var answers: seq<Answer>
    ghost var chunks: seq<seq<byte>>
    ghost var ended: bool           // a read has returned nothing or failed

    constructor (content: seq<byte>, answers: seq<Answer>)
      ensures Valid() && chunks == [] && !ended && this.content == content
    {
      this.content := content;
      this.position := 0;
      this.answers := answers;
      this.chunks := [];
      this.ended := false;
    }

    ghost predicate Valid()
      reads this
    {
      position <= |content| && Joined(chunks) == content[..position]
    }

    method Read(data: array<byte>, at: nat, size: nat) returns (got: int, ghost arrived: seq<byte>)
      requires Valid() && at + size <= data.Length
      modifies this, data
      ensures Valid() && -1 <= got <= size && old(position) <= |content|
      ensures got == Got(Awake(old(answers)), size, |content| - old(position))
      ensures answers == if Awake(old(answers)) == [] then [] else Awake(old(answers))[1..]
      ensures ended == (old(ended) || got <= 0)
      ensures position == old(position) + Max(got, 0)
      ensures arrived == content[old(position)..position] && |arrived| == Max(got, 0)
      ensures chunks == if got > 0 then old(chunks) + [arrived] else old(chunks)
      ensures data[..at + |arrived|] == old(data[..at]) + arrived
    {
      while answers != [] && answers[0].Signal?
        invariant Valid() && position == old(position) && chunks == old(chunks)
        invariant data[..] == old(data[..]) && ended == old(ended)
        invariant Awake(answers) == Awake(old(answers))
        decreases |answers|
      {
        answers := answers[1..];
      }
      arrived := [];
      got := 0;
      assert data[..at] == old(data[..at]);
      if answers == [] {
        ended := true;
        return;
      }
      var answer := answers[0];
      answers := answers[1..];
      match answer {
        case Failure =>
          got := -1;
          ended := true;
        case Delivers(limit) =>
          got := Min(Min(limit, size), |content| - position);
          arrived := Take(data, at, got);
          ended := ended || got == 0;
      }
    }

    // The next bytes land in the array.
    method Take(data: array<byte>, at: nat, count: nat) returns (ghost arrived: seq<byte>)
      requires Valid() && at + count <= data.Length && position + count <= |content|
      modifies this`position, this`chunks, data
      ensures Valid() && position == old(position) + count && arrived == content[old(position)..position]
      ensures chunks == if count > 0 then old(chunks) + [arrived] else old(chunks)
      ensures data[..at + count] == old(data[..at]) + arrived
    {
      ghost var start := position;
      var taken := content[position..position + count];
      forall k | 0 <= k < count {
        data[at + k] := taken[k];
      }
      arrived := taken;
      assert data[..at + count] == data[..at] + data[at..at + count];
      position := position + count;
      if count > 0 {
        chunks := chunks + [arrived];
        assert chunks[..|chunks| - 1] == old(chunks);
        assert content[..position] == content[..start] + arrived;
      }
    }
  }

  // memmove of the last `count` of the first `size` bytes to the front.
  method MoveToFront(buffer: array<byte>, size: nat, count: nat)
    requires count <= size <= buffer.Length
    modifies buffer
    ensures buffer[..count] == old(Tail(buffer[..size], count))
  {
    hide Shifted, Tail;
    var from := size - count;
    ghost var was := buffer[..];
    var i := 0;
    ShiftBegins(was, from);
    while i < count
      invariant 0 <= i <= count
      invariant Shifted(was, from, i, buffer[..])
    {
      ghost var now := buffer[..];
      ShiftStep(was, from, i, now);
      buffer[i] := buffer[from + i];
      assert buffer[..] == now[i := now[from + i]];
      i := i + 1;
    }
    ShiftEnd(was, size, count, buffer[..]);
    assert buffer[..count] == buffer[..][..count];
  }

  // The first i bytes behind `from` have moved to the front.
  ghost predicate Shifted(was: seq<byte>, from: nat, i: nat, now: seq<byte>) {
    from + i <= |was| && now == was[from..from + i] + was[i..]
  }

  lemma ShiftBegins(was: seq<byte>, from: nat)
    requires from <= |was|
    ensures Shifted(was, from, 0, was)
  {
  }

  lemma ShiftStep(was: seq<byte>, from: nat, i: nat, now: seq<byte>)
    requires from + i < |was| && Shifted(was, from, i, now)
    ensures |now| == |was| && Shifted(was, from, i + 1, now[i := now[from + i]])
  {
    assert was[i..] == [was[i]] + was[i + 1..];
    assert was[from..from + i + 1] == was[from..from + i] + [was[from + i]];
  }

  lemma ShiftEnd(was: seq<byte>, size: nat, count: nat, now: seq<byte>)
    requires count <= size <= |was| && Shifted(was, size - count, count, now)
    ensures |now| == |was| && now[..count] == Tail(was[..size], count)
  {
  }

  // QByteArrayView::indexOf: the first place the needle stands, or -1.
  method IndexOf(text: seq<byte>, needle: seq<byte>) returns (at: int)
    ensures at >= 0 <==> Occurs(needle, text)
    ensures at >= 0 ==> At(text, needle, at) && forall k :: At(text, needle, k) ==> at <= k
  {
    at := 0;
    while at <= |text| - |needle|
      invariant 0 <= at
      invariant forall k :: At(text, needle, k) ==> at <= k
    {
      if At(text, needle, at) {
        return;
      }
      at := at + 1;
    }
    at := -1;
  }

  // ---------------------------------------------------------------- the search

  datatype Stop = Refused | LimitReached | Interrupted | NothingMore | Matched

  // No needle of the stop mask occurs in what had been read before the last chunk.
  ghost predicate Unstopped(needles: seq<seq<byte>>, stopMask: bv32, chunks: seq<seq<byte>>)
    requires |needles| <= 32
  {
    forall k: nat :: 0 < k < |chunks| ==> !StopsAt(needles, stopMask, chunks, k)
  }

  ghost predicate StopsAt(needles: seq<seq<byte>>, stopMask: bv32, chunks: seq<seq<byte>>, k: nat)
    requires k <= |chunks| && |needles| <= 32
  {
    Meets(Mask(needles, Joined(chunks[..k]), |needles|), stopMask)
  }

  ghost function Result(needles: seq<seq<byte>>, text: seq<byte>): bv32
    requires |needles| <= 32
  {
    if text == [] then 0 else Mask(needles, text, |needles|)
  }

  predicate InterruptedAt(interruptions: seq<bool>, round: nat) {
    round < |interruptions| && interruptions[round]
  }

  // The file is null when it could not be opened; the interruptions are the answers the
  // thread gives before each read, none once the list has run out.
  method FindAny(file: Descriptor?, needles: seq<seq<byte>>, stopMask: bv32, limit: int, interruptions: seq<bool>)
      returns (found: bv32, ghost why: Stop)
    requires file != null ==> file.Valid() && file.chunks == [] && !file.ended
    modifies file
    ensures file == null || |needles| == 0 || |needles| > 32 <==> why.Refused?
    ensures why.Refused? ==> found == 0 && (file != null ==> file.chunks == [])
    ensures !why.Refused? ==> file.Valid() && |Joined(file.chunks)| <= Max(limit, 0)
    ensures !why.Refused? ==> found == Result(needles, Joined(file.chunks))
    ensures !why.Refused? ==> Unstopped(needles, stopMask, file.chunks)
    ensures !why.Refused? ==> (why.Matched? <==> Meets(found, stopMask))
    ensures why.LimitReached? ==> |Joined(file.chunks)| >= limit
    ensures !why.Refused? ==> (why.NothingMore? <==> file.ended)
    ensures why.Interrupted? ==> InterruptedAt(interruptions, |file.chunks|)
    ensures !why.Refused? ==> forall k: nat :: k < |file.chunks| ==> !InterruptedAt(interruptions, k)
  {
    found := 0;
    if file == null || |needles| == 0 || |needles| > 32 {
      return 0, Refused;
    }
    var overlap := Overlap(needles);
    // Layout: the carried tail of the bytes already searched, then the fresh ones.
    var buffer := new byte[overlap + CHUNK_BYTES];
    var carry := 0;
    var total := 0;
    why := LimitReached;
    var round: nat := 0;
    Beginning(needles, stopMask);
    assert Searching(file, needles, stopMask, overlap, buffer, carry, found);
    SearchingFacts(file, needles, stopMask, overlap, buffer, carry, found);
    hide Result, Unstopped, Meets, Joined, Searching, Descriptor.Valid;
    while total < limit
      invariant fresh(buffer) && Searching(file, needles, stopMask, overlap, buffer, carry, found)
      invariant Outcome(file, needles, stopMask, found) && !Meets(found, stopMask)
      invariant total == |Joined(file.chunks)| <= Max(limit, 0)
      invariant round == |file.chunks| && !file.ended
      invariant forall k: nat :: k < round ==> !InterruptedAt(interruptions, k)
      decreases limit - total
    {
      if InterruptedAt(interruptions, round) {
        why := Interrupted;
        break;
      }
      var got;
      got, found, carry := SearchChunk(file, needles, stopMask, overlap, buffer, carry, found,
                                       Min(CHUNK_BYTES, limit - total));
      if got <= 0 {
        why := NothingMore;
        break;
      }
      round := round + 1;
      total := total + got;
      if Meets(found, stopMask) {
        why := Matched;
        break;
      }
    }
  }

  // What holds whenever another chunk may be read.
  ghost predicate Searching(file: Descriptor, needles: seq<seq<byte>>, stopMask: bv32, overlap: nat,
                            buffer: array<byte>, carry: nat, found: bv32)
    reads file, buffer
  {
    var seen := Joined(file.chunks);
    && file.Valid() && 0 < |needles| <= 32 && Covers(needles, overlap)
    && buffer.Length == overlap + CHUNK_BYTES
    && carry == Min(overlap, |seen|) && buffer[..carry] == Tail(seen, carry)
    && found == Result(needles, seen) && !Meets(found, stopMask)
    && (file.chunks != [] ==> seen != []) && Unstopped(needles, stopMask, file.chunks)
  }

  // The search stands at the naive result of the bytes read, and had no earlier reason to stop.
  ghost predicate Outcome(file: Descriptor, needles: seq<seq<byte>>, stopMask: bv32, found: bv32)
    reads file
  {
    && |needles| <= 32 && file.Valid()
    && found == Result(needles, Joined(file.chunks)) && Unstopped(needles, stopMask, file.chunks)
  }

  lemma SearchingFacts(file: Descriptor, needles: seq<seq<byte>>, stopMask: bv32, overlap: nat,
                       buffer: array<byte>, carry: nat, found: bv32)
    requires Searching(file, needles, stopMask, overlap, buffer, carry, found)
    ensures Outcome(file, needles, stopMask, found) && !Meets(found, stopMask)
  {
    hide Result, Unstopped, Meets, Joined, Covers, Tail;
  }

  // One round of the search. The carry leaves room for a whole chunk behind it.
  method SearchChunk(file: Descriptor, needles: seq<seq<byte>>, stopMask: bv32, overlap: nat,
                     buffer: array<byte>, carry: nat, before: bv32, want: nat)
      returns (got: int, found: bv32, carry': nat)
    requires Searching(file, needles, stopMask, overlap, buffer, carry, before) && 0 < want <= CHUNK_BYTES
    modifies file, buffer
    ensures got <= want && file.ended == (old(file.ended) || got <= 0)
    ensures |file.chunks| == |old(file.chunks)| + if got > 0 then 1 else 0
    ensures |Joined(file.chunks)| == |old(Joined(file.chunks))| + Max(got, 0)
    ensures Outcome(file, needles, stopMask, found)
    ensures got <= 0 ==> found == before && !Meets(found, stopMask)
    ensures got > 0 && !Meets(found, stopMask) ==>
              Searching(file, needles, stopMask, overlap, buffer, carry', found)
  {
    hide Result, Mask, Unstopped, Or, Meets, Occurs, Covers, Joined, Tail, Descriptor.Valid;
    found, carry' := before, carry;
    ghost var chunks, seen := file.chunks, Joined(file.chunks);
    ghost var arrived;
    got, arrived := file.Read(buffer, carry, want);
    if got <= 0 {
      return;
    }
    var window := buffer[..carry + got];
    found := SearchWindow(needles, window, before);
    AfterChunk(needles, stopMask, chunks, arrived, carry, overlap);
    if !Meets(found, stopMask) {
      carry' := Min(overlap, |window|);
      MoveToFront(buffer, |window|, carry');
    }
  }

  // One pass over the needles: a bit is added for each one standing in the window.
  method SearchWindow(needles: seq<seq<byte>>, window: seq<byte>, before: bv32) returns (found: bv32)
    requires |needles| <= 32
    ensures found == Or(before, Mask(needles, window, |needles|))
  {
    hide Occurs, Bit, Or;
    found := before;
    OrLaws(found, 0, 0, 0);
    var i := 0;
    while i < |needles|
      invariant 0 <= i <= |needles|
      invariant found == Or(before, Mask(needles, window, i))
    {
      var at := IndexOf(window, needles[i]);
      OrLaws(before, Mask(needles, window, i), BitIf(at >= 0, i), 0);
      if at >= 0 {
        found := Or(found, Bit(i));
      } else {
        OrLaws(found, 0, 0, 0);
      }
      i := i + 1;
    }
  }

  // The longest needle less one.
  method Overlap(needles: seq<seq<byte>>) returns (overlap: nat)
    ensures Covers(needles, overlap)
    ensures overlap == 0 || exists needle :: needle in needles && |needle| - 1 == overlap
  {
    overlap := 0;
    var i := 0;
    while i < |needles|
      invariant 0 <= i <= |needles|
      invariant forall k :: 0 <= k < i ==> |needles[k]| - 1 <= overlap
      invariant overlap == 0 || exists needle :: needle in needles && |needle| - 1 == overlap
    {
      overlap := Max(overlap, |needles[i]| - 1);
      i := i + 1;
    }
  }

  lemma ResultAcross(needles: seq<seq<byte>>, seen: seq<byte>, arrived: seq<byte>, carry: nat, overlap: nat)
    requires 0 < |needles| <= 32 && arrived != []
    requires carry == Min(overlap, |seen|) && Covers(needles, overlap)
    ensures Result(needles, seen + arrived) ==
            Or(Result(needles, seen), Mask(needles, Tail(seen, carry) + arrived, |needles|))
  {
    hide Mask, Or;
    OrLaws(Mask(needles, Tail(seen, carry) + arrived, |needles|), 0, 0, 0);
    MaskAcross(needles, seen, arrived, carry, |needles|);
    if seen == [] {
      assert Tail(seen, carry) + arrived == seen + arrived;
    }
  }

  lemma JoinedLast(chunks: seq<seq<byte>>, arrived: seq<byte>)
    ensures Joined(chunks + [arrived]) == Joined(chunks) + arrived
  {
    assert (chunks + [arrived])[..|chunks|] == chunks;
  }

  lemma TailAcross(seen: seq<byte>, arrived: seq<byte>, carry: nat, next: nat)
    requires carry <= |seen| && next <= carry + |arrived|
    ensures Tail(Tail(seen, carry) + arrived, next) == Tail(seen + arrived, next)
  {
  }

  // What one more chunk does to everything the search keeps.
  lemma AfterChunk(needles: seq<seq<byte>>, stopMask: bv32, chunks: seq<seq<byte>>, arrived: seq<byte>,
                   carry: nat, overlap: nat)
    requires 0 < |needles| <= 32 && arrived != [] && (chunks != [] ==> Joined(chunks) != [])
    requires carry == Min(overlap, |Joined(chunks)|) && Covers(needles, overlap)
    requires !Meets(Result(needles, Joined(chunks)), stopMask)
    requires Unstopped(needles, stopMask, chunks)
    ensures var seen, next := Joined(chunks), Min(overlap, carry + |arrived|);
      var window := Tail(seen, carry) + arrived;
      && Joined(chunks + [arrived]) == seen + arrived
      && next == Min(overlap, |seen + arrived|)
      && Tail(window, next) == Tail(seen + arrived, next)
      && Result(needles, seen + arrived) == Or(Result(needles, seen), Mask(needles, window, |needles|))
    ensures Unstopped(needles, stopMask, chunks + [arrived])
  {
    hide Result, Mask, Unstopped, Or, Meets, Occurs, Covers, Joined, Tail;
    JoinedLast(chunks, arrived);
    StopsSoFar(needles, stopMask, chunks, arrived);
    ResultAcross(needles, Joined(chunks), arrived, carry, overlap);
    TailAcross(Joined(chunks), arrived, carry, Min(overlap, carry + |arrived|));
  }

  lemma Beginning(needles: seq<seq<byte>>, stopMask: bv32)
    requires |needles| <= 32
    ensures Unstopped(needles, stopMask, []) && Result(needles, []) == 0 && Joined([]) == [] && Tail([], 0) == [] &&
      !Meets(0, stopMask)
  {
    OrMeets(0, 0, stopMask);
  }

  lemma StopsSoFar(needles: seq<seq<byte>>, stopMask: bv32, chunks: seq<seq<byte>>, arrived: seq<byte>)
    requires |needles| <= 32
    requires Unstopped(needles, stopMask, chunks)
    requires chunks != [] ==> Joined(chunks) != []
    requires !Meets(Result(needles, Joined(chunks)), stopMask)
    ensures Unstopped(needles, stopMask, chunks + [arrived])
  {
    hide Mask, Meets, Joined;
    forall k: nat | 0 < k < |chunks + [arrived]|
      ensures !StopsAt(needles, stopMask, chunks + [arrived], k)
    {
      assert (chunks + [arrived])[..k] == chunks[..k];
      if k == |chunks| {
        assert chunks[..k] == chunks;
      } else {
        assert !StopsAt(needles, stopMask, chunks, k);
      }
    }
  }

  // ------------------------------------------------------------------- theorems

  // Whatever the chunking, a bit is set exactly when something was read and the needle occurs
  // in the bytes read; no other bit is ever set.
  lemma ResultMeaning(needles: seq<seq<byte>>, text: seq<byte>, j: nat)
    requires |needles| <= 32 && j < 32
    ensures Meets(Result(needles, text), Bit(j)) <==>
              text != [] && j < |needles| && Occurs(needles[j], text)
  {
    MaskMeaning(needles, text, |needles|, j);
    OrMeets(0, 0, Bit(j));
  }

  // Bit j of the word, counted from the lowest.
  ghost predicate BitAt(word: bv32, j: nat)
    requires j < 32
  {
    (word >> j) & 1 == 1
  }

  // The word, bit by bit.
  lemma ResultBits(needles: seq<seq<byte>>, text: seq<byte>, j: nat)
    requires |needles| <= 32 && j < 32
    ensures BitAt(Result(needles, text), j) <==> text != [] && j < |needles| && Occurs(needles[j], text)
  {
    hide Result, Meets, Bit, Occurs, BitAt;
    ResultMeaning(needles, text, j);
    BitShifted(Result(needles, text), j);
  }

  lemma BitShifted(word: bv32, j: nat)
    requires j < 32
    ensures Meets(word, Bit(j)) <==> BitAt(word, j)
  {
  }

  // The result is the naive search of the bytes read exactly when something was read or no
  // needle is empty: an empty needle occurs in an empty text, but its bit is not set.
  lemma AgreesWithNaiveSearch(needles: seq<seq<byte>>, text: seq<byte>)
    requires |needles| <= 32
    ensures Result(needles, text) == Mask(needles, text, |needles|) <==> text != [] || [] !in needles
  {
    if text == [] {
      if [] in needles {
        var j :| 0 <= j < |needles| && needles[j] == [];
        assert At(text, needles[j], 0);
        MaskMeaning(needles, text, |needles|, j);
        OrMeets(0, 0, Bit(j));
      } else {
        NothingInNothing(needles, |needles|);
      }
    }
  }

  lemma {:induction false} NothingInNothing(needles: seq<seq<byte>>, n: nat)
    requires n <= |needles| <= 32 && [] !in needles
    ensures Mask(needles, [], n) == 0
  {
    if n > 0 {
      NothingInNothing(needles, n - 1);
      assert needles[n - 1] in needles;
    }
  }
}
