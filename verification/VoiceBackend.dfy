/** The voice backend's completion ring: every started voice holds a credit for its last record, so
    the ring never runs out of room. */
module VoiceBackend {
  import opened Wrappers
  import opened RingArithmetic

  datatype Handle = Handle(slot: nat, generation: nat, epoch: nat)

  datatype Kind = Started | Finished | Stopped

  datatype Completion = Completion(playing: Handle, sequence: nat, kind: Kind)

  datatype Voice = Voice(instance: bool, playing: Handle, startSequence: nat, stopSequence: nat, stopRequested: bool, startFailed: bool)

  const EMPTY: Voice := Voice(false, Handle(0, 0, 0), 0, 0, false, false)

  datatype AudioResult = Ok | Pending | InvalidArgument | InvalidHandle | Capacity | BackendError

  /** What the native side says to a new instance: a failed creation may still leave one behind. */
  datatype Creation = Made | Refused | LeftBehind

  /** A voice that was started and is still there. */
  ghost predicate Live(v: Voice)
  {
    v.instance && !v.startFailed
  }

  ghost function Credits(voices: seq<Voice>): (n: nat)
    ensures n <= |voices|
  {
    if voices == [] then 0 else Credits(voices[..|voices| - 1]) + if Live(voices[|voices| - 1]) then 1 else 0
  }

  lemma {:induction false} CreditsChange(voices: seq<Voice>, i: nat, v: Voice)
    requires i < |voices|
    ensures Credits(voices[i := v]) + (if Live(voices[i]) then 1 else 0) == Credits(voices) + (if Live(v) then 1 else 0)
    ensures Live(voices[i]) ==> Credits(voices) > 0
  {
    var last := |voices| - 1;
    if i < last {
      CreditsChange(voices[..last], i, v);
      assert voices[i := v][..last] == voices[..last][i := v];
    } else {
      assert voices[i := v][..last] == voices[..last];
    }
  }

  lemma {:induction false} NoCredits(voices: seq<Voice>)
    requires forall i :: 0 <= i < |voices| ==> !Live(voices[i])
    ensures Credits(voices) == 0
  {
    if voices != [] {
      NoCredits(voices[..|voices| - 1]);
    }
  }

  /** The last record of a voice: stopped if that was asked for, finished otherwise. */
  ghost function LastRecord(v: Voice): Completion
  {
    Completion(v.playing, if v.stopRequested then v.stopSequence else v.startSequence, if v.stopRequested then Stopped else Finished)
  }

  // ---------------------------------------------------------------- the stream of records

  ghost predicate HasStart(stream: seq<Completion>, n: nat, h: Handle)
    requires n <= |stream|
  {
    exists i :: 0 <= i < n && stream[i].playing == h && stream[i].kind == Started
  }

  ghost predicate HasEnd(stream: seq<Completion>, h: Handle)
  {
    exists i :: 0 <= i < |stream| && stream[i].playing == h && stream[i].kind != Started
  }

  /** No play starts or ends twice, and none ends before it starts. */
  ghost predicate Orderly(stream: seq<Completion>)
  {
    && (forall i, j :: 0 <= i < j < |stream| && stream[i].playing == stream[j].playing ==> stream[i].kind == Started && stream[j].kind != Started)
    && (forall j :: 0 <= j < |stream| && stream[j].kind != Started ==> HasStart(stream, j, stream[j].playing))
  }

  /** A play is under way exactly if it has started and not ended, and then one voice holds it. */
  ghost predicate UnderWay(stream: seq<Completion>, voices: seq<Voice>)
  {
    && (forall i :: 0 <= i < |voices| && Live(voices[i]) ==>
          voices[i].playing.slot == i && HasStart(stream, |stream|, voices[i].playing) && !HasEnd(stream, voices[i].playing))
    && (forall k :: 0 <= k < |stream| && stream[k].kind == Started && !HasEnd(stream, stream[k].playing) ==>
          var h := stream[k].playing; h.slot < |voices| && Live(voices[h.slot]) && voices[h.slot].playing == h)
  }

  lemma StartKeepsOrder(stream: seq<Completion>, voices: seq<Voice>, i: nat, v: Voice, sequence: nat)
    requires Orderly(stream) && UnderWay(stream, voices) && i < |voices| && !voices[i].instance
    requires Live(v) && v.playing.slot == i && !HasStart(stream, |stream|, v.playing)
    ensures Orderly(stream + [Completion(v.playing, sequence, Started)])
    ensures UnderWay(stream + [Completion(v.playing, sequence, Started)], voices[i := v])
  {
    StreamGrows(stream, Completion(v.playing, sequence, Started));
  }

  lemma StreamGrows(stream: seq<Completion>, c: Completion)
    ensures var more := stream + [c];
      && (forall j, h :: 0 <= j <= |stream| && HasStart(stream, j, h) ==> HasStart(more, j, h))
      && (forall h :: HasStart(stream, |stream|, h) ==> HasStart(more, |more|, h))
      && (c.kind == Started ==> HasStart(more, |more|, c.playing))
      && (forall h :: HasEnd(more, h) <==> HasEnd(stream, h) || (c.playing == h && c.kind != Started))
  {
    var more := stream + [c];
    assert more[|stream|] == c;
    forall h | HasStart(stream, |stream|, h) ensures HasStart(more, |more|, h) {
      var i :| 0 <= i < |stream| && stream[i].playing == h && stream[i].kind == Started;
      assert more[i] == stream[i];
    }
    forall j, h | 0 <= j <= |stream| && HasStart(stream, j, h) ensures HasStart(more, j, h) {
      var i :| 0 <= i < j && stream[i].playing == h && stream[i].kind == Started;
      assert more[i] == stream[i];
    }
    forall h | HasEnd(stream, h) ensures HasEnd(more, h) {
      var i :| 0 <= i < |stream| && stream[i].playing == h && stream[i].kind != Started;
      assert more[i] == stream[i];
    }
  }

  lemma EndKeepsOrder(stream: seq<Completion>, voices: seq<Voice>, i: nat)
    requires Orderly(stream) && UnderWay(stream, voices) && i < |voices| && Live(voices[i])
    ensures Orderly(stream + [LastRecord(voices[i])])
    ensures UnderWay(stream + [LastRecord(voices[i])], voices[i := EMPTY])
  {
    StreamGrows(stream, LastRecord(voices[i]));
  }

  lemma OtherVoiceKeepsOrder(stream: seq<Completion>, voices: seq<Voice>, i: nat, v: Voice)
    requires UnderWay(stream, voices) && i < |voices|
    requires Live(v) == Live(voices[i]) && (Live(v) ==> v.playing == voices[i].playing)
    ensures UnderWay(stream, voices[i := v])
  {
  }

  /** Where a ring of a given size stands after one more position. */
  lemma CursorMoves(p: nat, cell: nat, capacity: nat)
    requires capacity > 0 && cell == p % capacity
    ensures (cell + 1) % capacity == (p + 1) % capacity
  {
    var q := p / capacity;
    assert p == capacity * q + cell;
    if cell + 1 < capacity {
      DivModUnique(p + 1, capacity, q, cell + 1);
      DivModUnique(cell + 1, capacity, 0, cell + 1);
    } else {
      assert capacity * q + capacity == capacity * (q + 1);
      DivModUnique(p + 1, capacity, q + 1, 0);
      DivModUnique(cell + 1, capacity, 1, 0);
    }
  }

  /** The ring holds the records from one position of the stream to its end. */
  ghost predicate Rings(cells: seq<Completion>, stream: seq<Completion>, drained: nat)
  {
    && |cells| > 0 && drained <= |stream| <= drained + |cells|
    && forall p :: drained <= p < |stream| ==> cells[p % |cells|] == stream[p]
  }

  lemma RingTakes(cells: seq<Completion>, stream: seq<Completion>, drained: nat, c: Completion)
    requires Rings(cells, stream, drained) && |stream| < drained + |cells|
    ensures Rings(cells[|stream| % |cells| := c], stream + [c], drained)
  {
    var n := |stream|;
    forall p: nat | drained <= p < n ensures p % |cells| != n % |cells| {
      if p % |cells| == n % |cells| {
        SameCellApart(p, n, |cells|);
      }
    }
  }

  class VoiceBackend {
    const voices: array<Voice>
    const completions: array<Completion>
    var readCell: nat
    var writeCell: nat
    var count: nat
    var reserved: nat
    /** Every record ever written, and how many of them have been drained. */
    ghost var stream: seq<Completion>
    ghost var drained: nat

    /** The ring and its credits; none of it depends on what the records say. */
    ghost predicate Funded()
      reads this, voices, completions
    {
      && Rings(completions[..], stream, drained) && count == |stream| - drained
      && readCell == drained % completions.Length && writeCell == |stream| % completions.Length
      && reserved == Credits(voices[..]) && count + reserved <= completions.Length
    }

    /** The records say a start and an end once for each play, as long as no play is started twice. */
    ghost predicate InOrder()
      reads this, voices
    {
      Orderly(stream) && UnderWay(stream, voices[..])
    }

    ghost predicate Valid()
      reads this, voices, completions
    {
      Funded() && InOrder()
    }

    constructor (maxVoices: nat, completionCapacity: nat)
      requires maxVoices > 0 && completionCapacity >= 2 && completionCapacity >= maxVoices * 2
      ensures Valid() && stream == [] && drained == 0 && fresh(voices) && fresh(completions)
      ensures voices.Length == maxVoices && completions.Length == completionCapacity
      ensures forall i :: 0 <= i < maxVoices ==> voices[i] == EMPTY
    {
      voices := new Voice[maxVoices](i => EMPTY);
      completions := new Completion[completionCapacity](i => Completion(Handle(0, 0, 0), 0, Started));
      readCell, writeCell, count, reserved, stream, drained := 0, 0, 0, 0, [], 0;
      new;
      NoCredits(voices[..]);
    }

    /** The source aborts when the ring is full; the precondition is what rules that out. */
    method WriteCompletion(c: Completion)
      requires Rings(completions[..], stream, drained) && count == |stream| - drained < completions.Length
      requires writeCell == |stream| % completions.Length
      modifies this`writeCell, this`count, this`stream, completions
      ensures Rings(completions[..], stream, drained) && count == |stream| - drained
      ensures writeCell == |stream| % completions.Length && stream == old(stream) + [c]
    {
      RingTakes(completions[..], stream, drained, c);
      CursorMoves(|stream|, writeCell, completions.Length);
      ghost var cells := completions[..];
      completions[writeCell] := c;
      assert completions[..] == cells[writeCell := c];
      writeCell := (writeCell + 1) % completions.Length;
      count := count + 1;
      stream := stream + [c];
    }

    /** Records leave in the order they were written. */
    method Drain(capacity: nat) returns (out: seq<Completion>)
      requires Funded()
      modifies this`readCell, this`count, this`drained
      ensures Funded() && drained == old(drained) + |out|
      ensures |out| == if capacity < old(count) then capacity else old(count)
      ensures out == stream[old(drained)..drained]
    {
      out := [];
      while |out| < capacity && count != 0
        invariant Funded() && drained == old(drained) + |out| && count == old(count) - |out|
        invariant |out| <= capacity && out == stream[old(drained)..drained]
        decreases count
      {
        CursorMoves(drained, readCell, completions.Length);
        out := out + [completions[readCell]];
        readCell := (readCell + 1) % completions.Length;
        count := count - 1;
        drained := drained + 1;
      }
    }

    method SetVoice(i: nat, v: Voice)
      requires Funded() && i < voices.Length && Live(v) == Live(voices[i])
      modifies voices
      ensures Funded() && voices[..] == old(voices[..])[i := v]
    {
      CreditsChange(voices[..], i, v);
      ghost var were := voices[..];
      voices[i] := v;
      assert voices[..] == were[i := v];
    }

    /** Start a voice. Room for its first and its last record is there before anything is created. The
        answers of the native side are parameters: the creation, the first refusal among the setup
        steps and the start itself, and whether a refused instance could be released. */
    method Play(h: Handle, sequence: nat, known: bool, creation: Creation, refusal: Option<AudioResult>, releases: bool)
      returns (result: AudioResult)
      requires Funded() && (refusal.Some? ==> refusal.value !in {Ok, Pending})
      modifies this`writeCell, this`count, this`reserved, this`stream, voices, completions
      ensures Funded()
      ensures old(InOrder()) && (result == Ok ==> !old(HasStart(stream, |stream|, h))) ==> InOrder()
      ensures result == if h.slot >= voices.Length || h.generation == 0 || h.epoch == 0 then InvalidHandle
                        else if old(voices[h.slot]).instance then Capacity
                        else if !known then InvalidArgument
                        else if old(count) + old(reserved) + 2 > completions.Length then Capacity
                        else if creation != Made then BackendError
                        else if refusal.Some? then refusal.value else Ok
      ensures result == Ok ==>
        && stream == old(stream) + [Completion(h, sequence, Started)] && reserved == old(reserved) + 1
        && voices[..] == old(voices[..])[h.slot := Voice(true, h, sequence, 0, false, false)]
      ensures result != Ok ==>
        && stream == old(stream) && reserved == old(reserved)
        && forall i :: 0 <= i < voices.Length && voices[i] != old(voices[i]) ==> !old(voices[i]).instance && voices[i].startFailed
      ensures result != Ok ==>
        voices[..] == if !(h.slot < voices.Length && h.generation != 0 && h.epoch != 0 && !old(voices[h.slot]).instance && known
                           && old(count) + old(reserved) + 2 <= completions.Length) then old(voices[..])
                      else if creation == LeftBehind then old(voices[..])[h.slot := old(voices[h.slot]).(instance := true, startFailed := true)]
                      else if creation == Made && !releases then old(voices[..])[h.slot := Voice(true, h, sequence, 0, false, true)]
                      else old(voices[..])
    {
      if h.slot >= voices.Length || h.generation == 0 || h.epoch == 0 {
        return InvalidHandle;
      }
      if voices[h.slot].instance {
        return Capacity;
      }
      if !known {
        return InvalidArgument;
      }
      if count + reserved + 2 > completions.Length {
        return Capacity;
      }
      if creation != Made {
        if creation == LeftBehind {
          Abandon(h.slot, voices[h.slot].(instance := true, startFailed := true));
        }
        return BackendError;
      }
      if refusal.Some? {
        if !releases {
          Abandon(h.slot, Voice(true, h, sequence, 0, false, true));
        }
        return refusal.value;
      }
      Begin(h, sequence);
      return Ok;
    }

    /** An instance that never started is kept until it can be released; it holds no credit. */
    method Abandon(i: nat, v: Voice)
      requires Funded() && i < voices.Length && !voices[i].instance && v.startFailed
      modifies voices
      ensures Funded() && voices[..] == old(voices[..])[i := v] && (old(InOrder()) ==> InOrder())
    {
      hide Orderly, UnderWay;
      if InOrder() {
        OtherVoiceKeepsOrder(stream, voices[..], i, v);
      }
      SetVoice(i, v);
    }

    method Begin(h: Handle, sequence: nat)
      requires Funded() && h.slot < voices.Length && !voices[h.slot].instance && count + reserved + 2 <= completions.Length
      modifies this`writeCell, this`count, this`reserved, this`stream, voices, completions
      ensures Funded() && reserved == old(reserved) + 1
      ensures old(InOrder() && !HasStart(stream, |stream|, h)) ==> InOrder()
      ensures stream == old(stream) + [Completion(h, sequence, Started)]
      ensures voices[..] == old(voices[..])[h.slot := Voice(true, h, sequence, 0, false, false)]
    {
      var v := Voice(true, h, sequence, 0, false, false);
      hide Orderly, UnderWay, HasStart, Rings;
      if InOrder() && !HasStart(stream, |stream|, h) {
        StartKeepsOrder(stream, voices[..], h.slot, v, sequence);
      }
      CreditsChange(voices[..], h.slot, v);
      ghost var were := voices[..];
      voices[h.slot] := v;
      assert voices[..] == were[h.slot := v];
      reserved := reserved + 1;
      WriteCompletion(Completion(h, sequence, Started));
    }

    /** Ask for a stop; its record comes when the voice has ended. */
    method Stop(h: Handle, sequence: nat, stops: bool) returns (result: AudioResult)
      requires Funded()
      modifies voices
      ensures Funded() && (old(InOrder()) ==> InOrder())
      ensures result == if h.slot >= voices.Length then InvalidHandle
                        else var v := old(voices[h.slot]);
                          if !Live(v) || v.playing.generation != h.generation || v.playing.epoch != h.epoch || v.stopRequested then InvalidHandle
                          else if !stops then BackendError else Pending
      ensures voices[..] == if result == Pending
                            then old(voices[..])[h.slot := old(voices[h.slot]).(stopSequence := sequence, stopRequested := true)]
                            else old(voices[..])
    {
      if h.slot >= voices.Length {
        return InvalidHandle;
      }
      var v := voices[h.slot];
      if !v.instance || v.startFailed || v.playing.generation != h.generation || v.playing.epoch != h.epoch {
        return InvalidHandle;
      }
      if v.stopRequested {
        return InvalidHandle;
      }
      if !stops {
        return BackendError;
      }
      hide Orderly, UnderWay;
      if InOrder() {
        OtherVoiceKeepsOrder(stream, voices[..], h.slot, v.(stopSequence := sequence, stopRequested := true));
      }
      SetVoice(h.slot, v.(stopSequence := sequence, stopRequested := true));
      return Pending;
    }

    /** The credit of an ended voice pays for its last record. */
    method End(i: nat)
      requires Funded() && i < voices.Length && Live(voices[i])
      modifies this`writeCell, this`count, this`reserved, this`stream, voices, completions
      ensures Funded() && (old(InOrder()) ==> InOrder())
      ensures stream == old(stream) + [LastRecord(old(voices[i]))] && voices[..] == old(voices[..])[i := EMPTY]
    {
      hide Orderly, UnderWay, Rings;
      if InOrder() {
        EndKeepsOrder(stream, voices[..], i);
      }
      CreditsChange(voices[..], i, EMPTY);
      var v := voices[i];
      reserved := reserved - 1;
      WriteCompletion(Completion(v.playing, if v.stopRequested then v.stopSequence else v.startSequence,
                                 if v.stopRequested then Stopped else Finished));
      ghost var were := voices[..];
      voices[i] := EMPTY;
      assert voices[..] == were[i := EMPTY];
    }

    method PollVoice(i: nat, stopped: bool, releases: bool)
      requires Funded() && i < voices.Length
      modifies this`writeCell, this`count, this`reserved, this`stream, voices, completions
      ensures Funded() && (old(InOrder()) ==> InOrder())
      ensures voices[..] == old(voices[..])[i := AfterPoll(old(voices[i]), stopped, releases)]
      ensures stream == old(stream) + PollRecord(old(voices[i]), stopped, releases)
    {
      assert voices[..][i := voices[i]] == voices[..];
      var v := voices[i];
      if !v.instance {
        return;
      }
      if v.startFailed {
        if releases {
          if InOrder() {
            OtherVoiceKeepsOrder(stream, voices[..], i, EMPTY);
          }
          SetVoice(i, EMPTY);
        }
        return;
      }
      if stopped && releases {
        End(i);
      }
    }

    /** Look at every voice in turn. Each that has ended and could be released writes its last record. */
    method PollVoices(stopped: nat -> bool, releases: nat -> bool)
      requires Funded()
      modifies this`writeCell, this`count, this`reserved, this`stream, voices, completions
      ensures Funded() && (old(InOrder()) ==> InOrder())
      ensures stream == old(stream) + PollRecords(old(voices[..]), voices.Length, stopped, releases)
      ensures PolledTo(old(voices[..]), voices.Length, stopped, releases, voices[..])
    {
      hide Funded, InOrder, PolledTo, PollRecords, AfterPoll, PollRecord;
      ghost var were := voices[..];
      NothingPolled(were, stopped, releases);
      for i: nat := 0 to voices.Length
        invariant Funded() && (old(InOrder()) ==> InOrder())
        invariant stream == old(stream) + PollRecords(were, i, stopped, releases)
        invariant PolledTo(were, i, stopped, releases, voices[..])
      {
        OneMorePolled(were, i, stopped, releases, voices[..]);
        PollVoice(i, stopped(i), releases(i));
      }
    }
  }

  ghost function AfterPoll(v: Voice, stopped: bool, releases: bool): Voice
  {
    if v.instance && releases && (v.startFailed || stopped) then EMPTY else v
  }

  ghost function PollRecord(v: Voice, stopped: bool, releases: bool): seq<Completion>
  {
    if Live(v) && stopped && releases then [LastRecord(v)] else []
  }

  ghost function PollRecords(voices: seq<Voice>, n: nat, stopped: nat -> bool, releases: nat -> bool): seq<Completion>
    requires n <= |voices|
  {
    if n == 0 then [] else PollRecords(voices, n - 1, stopped, releases) + PollRecord(voices[n - 1], stopped(n - 1), releases(n - 1))
  }

  /** The first n voices have been looked at. */
  ghost predicate PolledTo(were: seq<Voice>, n: nat, stopped: nat -> bool, releases: nat -> bool, voices: seq<Voice>)
  {
    && n <= |were| == |voices|
    && forall j: nat :: j < |voices| ==> voices[j] == if j < n then AfterPoll(were[j], stopped(j), releases(j)) else were[j]
  }

  lemma NothingPolled(were: seq<Voice>, stopped: nat -> bool, releases: nat -> bool)
    ensures PolledTo(were, 0, stopped, releases, were) && PollRecords(were, 0, stopped, releases) == []
  {
  }

  lemma OneMorePolled(were: seq<Voice>, i: nat, stopped: nat -> bool, releases: nat -> bool, voices: seq<Voice>)
    requires PolledTo(were, i, stopped, releases, voices) && i < |were|
    ensures |voices| == |were| && voices[i] == were[i]
    ensures PolledTo(were, i + 1, stopped, releases, voices[i := AfterPoll(were[i], stopped(i), releases(i))])
    ensures PollRecords(were, i + 1, stopped, releases)
         == PollRecords(were, i, stopped, releases) + PollRecord(were[i], stopped(i), releases(i))
  {
  }
}
