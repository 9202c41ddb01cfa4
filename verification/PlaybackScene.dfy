/** What a moment of playback looks like from outside: the audio system's slots, the commands that
    wait, the backend's voices and the records it has written. No voice is stuck between them. */
module PlaybackScene {
  import S = AudioSystem
  import B = VoiceBackend

  /** A handle as the backend knows it. */
  function Native(h: S.Handle): B.Handle
  {
    B.Handle(h.slot, h.generation, h.epoch)
  }

  /** The handle has been given to somebody: the slot has come to its generation. */
  ghost predicate HandedOut(playing: seq<S.PlayingSlot>, epoch: nat, h: S.Handle)
  {
    h.epoch == epoch && h.slot < |playing| && 0 < h.generation <= playing[h.slot].generation
  }

  ghost predicate Started(stream: seq<B.Completion>, h: S.Handle)
  {
    B.HasStart(stream, |stream|, Native(h))
  }

  /** Plays that wait in the queue were handed out, each once, and have not been started; what was
      started was handed out. */
  ghost predicate OnceOnly(playing: seq<S.PlayingSlot>, epoch: nat, plays: seq<S.Command>, stream: seq<B.Completion>)
  {
    && (forall i :: 0 <= i < |plays| ==>
          plays[i].PlayCommand? && HandedOut(playing, epoch, plays[i].playing) && !Started(stream, plays[i].playing))
    && (forall i, j :: 0 <= i < j < |plays| ==> plays[i].playing != plays[j].playing)
    && (forall h :: Started(stream, h) ==> HandedOut(playing, epoch, h))
  }

  ghost predicate SameGenerations(a: seq<S.PlayingSlot>, b: seq<S.PlayingSlot>)
  {
    |a| == |b| && forall s :: 0 <= s < |a| ==> a[s].generation == b[s].generation
  }

  lemma SameGenerationsKeep(were: seq<S.PlayingSlot>, playing: seq<S.PlayingSlot>, epoch: nat, plays: seq<S.Command>, stream: seq<B.Completion>)
    requires OnceOnly(were, epoch, plays, stream) && SameGenerations(were, playing)
    ensures OnceOnly(playing, epoch, plays, stream)
  {
    hide Started;
  }

  /** A slot's next generation has never been handed out. */
  lemma NextIsNew(playing: seq<S.PlayingSlot>, epoch: nat, plays: seq<S.Command>, stream: seq<B.Completion>, h: S.Handle, p: S.PlayingSlot, sequence: nat)
    requires OnceOnly(playing, epoch, plays, stream) && h.slot < |playing| && h.epoch == epoch
    requires h.generation == playing[h.slot].generation + 1 == p.generation
    ensures !HandedOut(playing, epoch, h) && !Started(stream, h)
    ensures OnceOnly(playing[h.slot := p], epoch, plays + [S.PlayCommand(h, sequence)], stream)
  {
    hide Started;
    assert !HandedOut(playing, epoch, h);
  }

  lemma StreamStarts(stream: seq<B.Completion>, more: seq<B.Completion>, h: S.Handle)
    ensures Started(stream + more, h) <==> Started(stream, h) || Started(more, h)
  {
    var all := stream + more;
    if i :| 0 <= i < |stream| && stream[i].playing == Native(h) && stream[i].kind == B.Started {
      assert all[i] == stream[i];
    }
    if i :| 0 <= i < |more| && more[i].playing == Native(h) && more[i].kind == B.Started {
      assert all[|stream| + i] == more[i];
    }
  }

  /** The head of the queue was submitted; it may have been started. */
  lemma SubmittedOnce(playing: seq<S.PlayingSlot>, epoch: nat, plays: seq<S.Command>, stream: seq<B.Completion>, more: seq<B.Completion>)
    requires OnceOnly(playing, epoch, plays, stream) && plays != []
    requires forall k :: 0 <= k < |more| ==> more[k].kind == B.Started ==> more[k].playing == Native(plays[0].playing)
    ensures OnceOnly(playing, epoch, plays[1..], stream + more)
  {
    forall h: S.Handle ensures Started(stream + more, h) <==> Started(stream, h) || Started(more, h) {
      StreamStarts(stream, more, h);
    }
  }

  /** What the backend writes when it is given a play. */
  ghost function StartOf(command: S.Command, result: B.AudioResult): (more: seq<B.Completion>)
    ensures Started(more, command.playing) <==> result == B.Ok
  {
    if result == B.Ok then
      assert [B.Completion(Native(command.playing), command.sequence, B.Started)][0].kind == B.Started;
      [B.Completion(Native(command.playing), command.sequence, B.Started)]
    else []
  }

  lemma HeadIsNew(playing: seq<S.PlayingSlot>, epoch: nat, plays: seq<S.Command>, stream: seq<B.Completion>)
    requires OnceOnly(playing, epoch, plays, stream) && plays != []
    ensures plays[0].PlayCommand? && !Started(stream, plays[0].playing)
  {
  }

  lemma EndsKeep(playing: seq<S.PlayingSlot>, epoch: nat, plays: seq<S.Command>, stream: seq<B.Completion>, more: seq<B.Completion>)
    requires OnceOnly(playing, epoch, plays, stream) && forall k :: 0 <= k < |more| ==> more[k].kind != B.Started
    ensures OnceOnly(playing, epoch, plays, stream + more)
  {
    forall h: S.Handle ensures Started(stream + more, h) <==> Started(stream, h) || Started(more, h) {
      StreamStarts(stream, more, h);
    }
  }

  lemma {:induction false} PollsOnlyEnd(voices: seq<B.Voice>, n: nat, stopped: nat -> bool, releases: nat -> bool)
    requires n <= |voices|
    ensures forall k :: 0 <= k < |B.PollRecords(voices, n, stopped, releases)| ==> B.PollRecords(voices, n, stopped, releases)[k].kind != B.Started
  {
    if n > 0 {
      PollsOnlyEnd(voices, n - 1, stopped, releases);
    }
  }

  function Record(c: B.Completion): S.Completion
  {
    S.Completion(S.Handle(c.playing.slot, c.playing.generation, c.playing.epoch), c.sequence,
                 match c.kind case Started => S.Started case Finished => S.FinishedPlaying case Stopped => S.Stopped)
  }

  /** The slots after the backend has refused a command. */
  ghost function AfterRefusal(playing: seq<S.PlayingSlot>, epoch: nat, command: S.Command): (after: seq<S.PlayingSlot>)
    ensures SameGenerations(playing, after)
  {
    if S.ValidPlaying(playing, epoch, command.playing)
    then playing[command.playing.slot := S.Refused(playing[command.playing.slot], command)] else playing
  }

  /** The slots after one record; one that is stale or out of turn changes nothing. */
  ghost function AfterRecord(playing: seq<S.PlayingSlot>, epoch: nat, c: S.Completion): (after: seq<S.PlayingSlot>)
    ensures SameGenerations(playing, after)
  {
    if S.ValidPlaying(playing, epoch, c.playing) && S.Completed(playing[c.playing.slot], c).Some?
    then playing[c.playing.slot := S.Completed(playing[c.playing.slot], c).value] else playing
  }

  ghost function AfterRecords(playing: seq<S.PlayingSlot>, epoch: nat, records: seq<B.Completion>): (after: seq<S.PlayingSlot>)
    ensures SameGenerations(playing, after) && (records == [] ==> after == playing)
  {
    if records == [] then playing
    else AfterRecord(AfterRecords(playing, epoch, records[..|records| - 1]), epoch, Record(records[|records| - 1]))
  }

  lemma OneMoreRecord(playing: seq<S.PlayingSlot>, epoch: nat, records: seq<B.Completion>, i: nat)
    requires i < |records|
    ensures AfterRecords(playing, epoch, records[..i + 1]) == AfterRecord(AfterRecords(playing, epoch, records[..i]), epoch, Record(records[i]))
  {
    assert records[..i + 1][..i] == records[..i];
  }

  // ---------------------------------------------------------------- no voice is stuck

  /** Records up to `applied` have been applied to the slots. */
  datatype Scene = Scene(playing: seq<S.PlayingSlot>, epoch: nat, plays: seq<S.Command>, stops: seq<S.Command>,
                         stream: seq<B.Completion>, applied: nat, voices: seq<B.Voice>)

  /** Whose the slot is now. */
  ghost function Holder(m: Scene, s: nat): S.Handle
    requires s < |m.playing|
  {
    S.Handle(s, m.playing[s].generation, m.epoch)
  }

  ghost predicate HasRun(p: S.PlayingSlot)
  {
    p.state == S.Playing || (p.state == S.Stopping && p.beforeStop == S.Playing)
  }

  /** A record about the slot's voice is one the slot will take, or has taken: a start it has taken
      has made it run, and no last record has been taken by a voice that is not over. */
  ghost predicate Expected(p: S.PlayingSlot, c: B.Completion, applied: bool)
  {
    match c.kind
    case Started => c.sequence == p.startSequence && (applied ==> HasRun(p))
    case Finished => c.sequence == p.startSequence && !applied
    case Stopped => c.sequence == p.stopSequence && !applied && p.state == S.Stopping
  }

  ghost predicate AllExpected(p: S.PlayingSlot, h: S.Handle, stream: seq<B.Completion>, applied: nat)
  {
    forall k :: 0 <= k < |stream| && stream[k].playing == Native(h) ==> Expected(p, stream[k], k < applied)
  }

  /** The backend's voice is the slot's, and was asked to stop by the slot's own stop. */
  ghost predicate Serves(v: B.Voice, h: S.Handle, p: S.PlayingSlot)
  {
    && v.playing == Native(h) && v.startSequence == p.startSequence
    && (v.stopRequested ==> p.state == S.Stopping && p.stopSequence == v.stopSequence)
  }

  /** A stop that waits is the one the slot is stopping for, and nobody has seen it yet. */
  ghost predicate StopIsOwn(stops: seq<S.Command>, h: S.Handle, p: S.PlayingSlot, v: B.Voice, stream: seq<B.Completion>)
  {
    forall i :: 0 <= i < |stops| && stops[i].playing == h ==>
      && p.state == S.Stopping && stops[i].sequence == p.stopSequence && !(B.Live(v) && v.stopRequested)
      && forall k :: 0 <= k < |stream| && stream[k].playing == Native(h) ==> stream[k].kind != B.Stopped
  }

  ghost predicate Attended(m: Scene, s: nat)
    requires s < |m.playing| == |m.voices|
  {
    var p, v, h := m.playing[s], m.voices[s], Holder(m, s);
    if S.Alive(p) then
      && (S.PlayCommand(h, p.startSequence) in m.plays || Started(m.stream, h))
      && AllExpected(p, h, m.stream, m.applied) && (B.Live(v) ==> Serves(v, h, p)) && StopIsOwn(m.stops, h, p, v, m.stream)
      && (p.state == S.Stopping ==>
            S.StopCommand(h, p.stopSequence) in m.stops || (B.Live(v) && v.stopRequested) || B.HasEnd(m.stream, Native(h)))
    else !B.Live(v)
  }

  /** A play that waits is waited for by its slot. */
  ghost predicate Awaited(m: Scene, c: S.Command)
  {
    && c.PlayCommand? && c.playing.slot < |m.playing| && S.Alive(m.playing[c.playing.slot])
    && c.playing == Holder(m, c.playing.slot) && c.sequence == m.playing[c.playing.slot].startSequence
  }

  ghost predicate QueuesOk(m: Scene)
  {
    && (forall i :: 0 <= i < |m.plays| ==> Awaited(m, m.plays[i]))
    && (forall i :: 0 <= i < |m.stops| ==> m.stops[i].StopCommand? && HandedOut(m.playing, m.epoch, m.stops[i].playing))
    && (forall i, j :: 0 <= i < j < |m.stops| ==> m.stops[i].playing != m.stops[j].playing)
  }

  ghost predicate Steady(m: Scene)
  {
    && |m.playing| == |m.voices| && m.applied <= |m.stream| && QueuesOk(m)
    && (forall s :: 0 <= s < |m.playing| ==> S.SlotOk(m.playing[s]))
    && (forall s :: 0 <= s < |m.playing| ==> Attended(m, s))
  }

  /** The records and voices are in order, and plays are handed out once. */
  ghost predicate Ordered(m: Scene)
  {
    B.Orderly(m.stream) && B.UnderWay(m.stream, m.voices) && OnceOnly(m.playing, m.epoch, m.plays, m.stream)
  }

  lemma SoundSlots(playing: seq<S.PlayingSlot>, emitters: seq<S.SpatialSlot>, epoch: nat)
    requires S.Sound(playing, emitters, epoch)
    ensures forall s :: 0 <= s < |playing| ==> S.SlotOk(playing[s])
  {
  }

  /** Nothing plays and nothing waits. */
  lemma SilenceIsSteady(m: Scene)
    requires |m.playing| == |m.voices| && m.plays == [] && m.stops == [] && m.stream == [] && m.applied == 0
    requires forall s :: 0 <= s < |m.playing| ==> S.SlotOk(m.playing[s]) && m.playing[s].state == S.Free && m.voices[s] == B.EMPTY
    ensures Steady(m) && OnceOnly(m.playing, m.epoch, m.plays, m.stream)
  {
  }

  /** A voice that has not ended has its play in the queue, or is under way with the backend, or its
      last record is on its way back. */
  lemma NoVoiceIsStuck(m: Scene, s: nat)
    requires Steady(m) && Ordered(m) && s < |m.playing| && S.Alive(m.playing[s])
    ensures var p, v, h := m.playing[s], m.voices[s], Holder(m, s);
      || S.PlayCommand(h, p.startSequence) in m.plays
      || (B.Live(v) && Serves(v, h, p))
      || exists k :: m.applied <= k < |m.stream| && m.stream[k].playing == Native(h) && m.stream[k].kind != B.Started
  {
    assert Attended(m, s);
    var h := Holder(m, s);
    if Started(m.stream, h) {
      var k :| 0 <= k < |m.stream| && m.stream[k].playing == Native(h) && m.stream[k].kind == B.Started;
      if B.HasEnd(m.stream, Native(h)) {
        var e :| 0 <= e < |m.stream| && m.stream[e].playing == Native(h) && m.stream[e].kind != B.Started;
        assert Expected(m.playing[s], m.stream[e], e < m.applied);
      }
    }
  }

  /** When nothing waits, exactly the slots whose voice has not ended have a voice with the backend. */
  lemma QuietIsLive(m: Scene, s: nat)
    requires Steady(m) && Ordered(m) && s < |m.playing| && m.plays == [] && m.applied == |m.stream|
    ensures S.Alive(m.playing[s]) <==> B.Live(m.voices[s])
    ensures B.Live(m.voices[s]) ==> m.voices[s].playing == Native(Holder(m, s))
  {
    assert Attended(m, s);
    if S.Alive(m.playing[s]) {
      NoVoiceIsStuck(m, s);
    }
  }

  /** And a slot that is stopping has a voice that has been asked to. */
  lemma QuietStopIsAsked(m: Scene, s: nat)
    requires Steady(m) && Ordered(m) && s < |m.playing| && m.plays == [] && m.stops == [] && m.applied == |m.stream|
    requires m.playing[s].state == S.Stopping
    ensures B.Live(m.voices[s]) && m.voices[s].stopRequested
  {
    assert Attended(m, s);
    QuietIsLive(m, s);
  }

  /** What concerns other slots only does not disturb a slot. */
  lemma Undisturbed(m: Scene, n: Scene, s: nat)
    requires s < |m.playing| == |m.voices| == |n.playing| == |n.voices| && Attended(m, s)
    requires n.playing[s] == m.playing[s] && n.voices[s] == m.voices[s] && n.epoch == m.epoch && n.applied == m.applied
    requires forall c: S.Command :: c in m.plays && c.playing.slot == s ==> c in n.plays
    requires forall c: S.Command :: c.playing.slot == s ==> (c in n.stops <==> c in m.stops)
    requires m.stream <= n.stream && forall k :: |m.stream| <= k < |n.stream| ==> n.stream[k].playing.slot != s
    ensures Attended(n, s)
  {
    var h := Holder(m, s);
    assert Started(m.stream, h) ==> Started(n.stream, h);
    assert B.HasEnd(m.stream, Native(h)) ==> B.HasEnd(n.stream, Native(h));
    forall i | 0 <= i < |n.stops| && n.stops[i].playing == h
      ensures exists j :: 0 <= j < |m.stops| && m.stops[j] == n.stops[i]
    {
      assert n.stops[i] in n.stops;
    }
  }

  /** There is a record only about what was handed out. */
  lemma RecordedIsHandedOut(m: Scene, k: nat, h: S.Handle)
    requires Ordered(m) && k < |m.stream| && m.stream[k].playing == Native(h)
    ensures Started(m.stream, h) && HandedOut(m.playing, m.epoch, h)
  {
    if m.stream[k].kind != B.Started {
      assert B.HasStart(m.stream, k, m.stream[k].playing);
    }
  }

  /** Everything is in place for a voice that is queued. */
  lemma QueuedIsAttended(m: Scene, h: S.Handle, p: S.PlayingSlot, sequence: nat)
    requires Steady(m) && Ordered(m) && h.slot < |m.playing| && h == S.Handle(h.slot, p.generation, m.epoch)
    requires p.generation == m.playing[h.slot].generation + 1 && !S.Alive(m.playing[h.slot])
    requires p.state == S.Queued && p.startSequence == sequence && S.SlotOk(p)
    ensures Steady(m.(playing := m.playing[h.slot := p], plays := m.plays + [S.PlayCommand(h, sequence)]))
  {
    var n := m.(playing := m.playing[h.slot := p], plays := m.plays + [S.PlayCommand(h, sequence)]);
    assert Attended(m, h.slot);
    forall k | 0 <= k < |m.stream| && m.stream[k].playing == Native(h) ensures false {
      RecordedIsHandedOut(m, k, h);
    }
    assert S.PlayCommand(h, sequence) == n.plays[|m.plays|];
    forall s | 0 <= s < |n.playing| ensures Attended(n, s) {
      if s != h.slot {
        Undisturbed(m, n, s);
      }
    }
  }

  /** A stop is queued for a voice that has not been asked to stop. */
  lemma StoppingIsAttended(m: Scene, h: S.Handle, sequence: nat)
    requires Steady(m) && Ordered(m) && S.ValidPlaying(m.playing, m.epoch, h) && m.playing[h.slot].state in {S.Queued, S.Playing}
    ensures Steady(Stopping(m, h, sequence))
  {
    hide Started, Ordered;
    var n := Stopping(m, h, sequence);
    assert Attended(m, h.slot);
    assert S.StopCommand(h, sequence) == n.stops[|m.stops|];
    forall c: S.Command | c.playing.slot != h.slot ensures c in n.stops <==> c in m.stops {
    }
    forall s | 0 <= s < |n.playing| ensures Attended(n, s) {
      if s != h.slot {
        Undisturbed(m, n, s);
      }
    }
  }

  ghost function Stopping(m: Scene, h: S.Handle, sequence: nat): Scene
    requires h.slot < |m.playing|
  {
    var p := m.playing[h.slot];
    m.(playing := m.playing[h.slot := p.(stopSequence := sequence, beforeStop := p.state, state := S.Stopping)],
       stops := m.stops + [S.StopCommand(h, sequence)])
  }

  /** The oldest play was submitted, and is out of the queue. */
  lemma PlayedOnce(m: Scene, result: B.AudioResult)
    requires Ordered(m) && m.plays != []
    ensures OnceOnly(m.playing, m.epoch, m.plays[1..], m.stream + StartOf(m.plays[0], result))
    ensures Started(m.stream + StartOf(m.plays[0], result), m.plays[0].playing) <==> result == B.Ok
    ensures result != B.Ok ==> m.stream + StartOf(m.plays[0], result) == m.stream
  {
    HeadIsNew(m.playing, m.epoch, m.plays, m.stream);
    SubmittedOnce(m.playing, m.epoch, m.plays, m.stream, StartOf(m.plays[0], result));
    StreamStarts(m.stream, StartOf(m.plays[0], result), m.plays[0].playing);
  }

  lemma VoiceIsInPlace(m: Scene, i: nat)
    requires Ordered(m) && i < |m.voices| && B.Live(m.voices[i])
    ensures m.voices[i].playing.slot == i
  {
  }

  /** The oldest play has become a voice. */
  lemma StartedIsAttended(m: Scene, v: B.Voice)
    requires Steady(m) && Ordered(m) && m.plays != []
    requires var c := m.plays[0]; v == B.Voice(true, Native(c.playing), c.sequence, 0, false, false)
    ensures var c := m.plays[0];
      && c.playing.slot < |m.voices|
      && Steady(m.(plays := m.plays[1..], voices := m.voices[c.playing.slot := v], stream := m.stream + StartOf(c, B.Ok)))
  {
    var c := m.plays[0];
    assert Awaited(m, c);
    var h := c.playing;
    var n := m.(plays := m.plays[1..], voices := m.voices[h.slot := v], stream := m.stream + StartOf(c, B.Ok));
    StreamStarts(m.stream, StartOf(c, B.Ok), h);
    assert Attended(m, h.slot);
    OthersWait(m);
    forall s | 0 <= s < |n.playing| ensures Attended(n, s) {
      if s != h.slot {
        Undisturbed(m, n, s);
      }
    }
  }

  /** No two plays wait for the same slot. */
  lemma OthersWait(m: Scene)
    requires Steady(m) && m.plays != []
    ensures forall c :: c in m.plays && c != m.plays[0] ==> c in m.plays[1..]
  {
    assert m.plays == [m.plays[0]] + m.plays[1..];
  }

  /** The oldest play was refused: its slot's voice has failed. */
  lemma FailedIsAttended(m: Scene, voices: seq<B.Voice>)
    requires Steady(m) && Ordered(m) && m.plays != [] && |voices| == |m.voices|
    requires forall i :: 0 <= i < |voices| ==> voices[i] == m.voices[i] || (!B.Live(voices[i]) && !B.Live(m.voices[i]))
    ensures Steady(m.(plays := m.plays[1..], voices := voices, playing := AfterRefusal(m.playing, m.epoch, m.plays[0])))
  {
    var c := m.plays[0];
    assert Awaited(m, c);
    var n := m.(plays := m.plays[1..], voices := voices, playing := AfterRefusal(m.playing, m.epoch, c));
    OthersWait(m);
    forall s | 0 <= s < |n.playing| ensures Attended(n, s) {
      assert Attended(m, s);
    }
  }

  /** The backend has been asked for the oldest stop. */
  lemma AskedIsAttended(m: Scene)
    requires Steady(m) && Ordered(m) && m.stops != []
    requires var c := m.stops[0]; c.playing.slot < |m.voices| && B.Live(m.voices[c.playing.slot]) && m.voices[c.playing.slot].playing == Native(c.playing)
    ensures var c := m.stops[0];
      var v := m.voices[c.playing.slot].(stopSequence := c.sequence, stopRequested := true);
      Steady(m.(stops := m.stops[1..], voices := m.voices[c.playing.slot := v]))
  {
    var c := m.stops[0];
    var v := m.voices[c.playing.slot].(stopSequence := c.sequence, stopRequested := true);
    var n := m.(stops := m.stops[1..], voices := m.voices[c.playing.slot := v]);
    assert m.stops == [c] + m.stops[1..];
    assert Attended(m, c.playing.slot);
    forall s | 0 <= s < |n.playing| ensures Attended(n, s) {
      if s != c.playing.slot {
        Undisturbed(m, n, s);
      }
    }
  }

  /** The oldest stop was refused: its slot is what it was before. */
  lemma RefusedIsAttended(m: Scene)
    requires Steady(m) && Ordered(m) && m.stops != []
    ensures Steady(m.(stops := m.stops[1..], playing := AfterRefusal(m.playing, m.epoch, m.stops[0])))
  {
    var c := m.stops[0];
    var n := m.(stops := m.stops[1..], playing := AfterRefusal(m.playing, m.epoch, c));
    assert m.stops == [c] + m.stops[1..];
    assert Attended(m, c.playing.slot);
    forall s | 0 <= s < |n.playing| ensures Attended(n, s) {
      if s != c.playing.slot {
        Undisturbed(m, n, s);
      }
    }
  }

  /** The next record is applied: it is one its slot takes, unless the slot is somebody else's by now. */
  lemma AppliedIsAttended(m: Scene)
    requires Steady(m) && Ordered(m) && m.applied < |m.stream|
    ensures Steady(m.(playing := AfterRecord(m.playing, m.epoch, Record(m.stream[m.applied])), applied := m.applied + 1))
  {
    hide B.HasStart, B.HasEnd, B.Orderly, B.UnderWay;
    var c := Record(m.stream[m.applied]);
    var n := m.(playing := AfterRecord(m.playing, m.epoch, c), applied := m.applied + 1);
    RecordedIsHandedOut(m, m.applied, c.playing);
    forall s | 0 <= s < |n.playing| ensures Attended(n, s) {
      assert Attended(m, s);
      if s == c.playing.slot {
        AppliedSlot(m, n, s);
      }
    }
  }

  /** A last record that is due finds the slot's voice running, for its start was taken before. */
  lemma EndFindsRunning(m: Scene, s: nat)
    requires Steady(m) && Ordered(m) && s < |m.playing| && S.Alive(m.playing[s]) && m.applied < |m.stream|
    requires m.stream[m.applied].playing == Native(Holder(m, s)) && m.stream[m.applied].kind != B.Started
    ensures HasRun(m.playing[s])
  {
    hide OnceOnly, QueuesOk, StopIsOwn, B.UnderWay;
    assert Attended(m, s);
    assert B.HasStart(m.stream, m.applied, m.stream[m.applied].playing);
    var k :| 0 <= k < m.applied && m.stream[k].playing == m.stream[m.applied].playing && m.stream[k].kind == B.Started;
    assert Expected(m.playing[s], m.stream[k], k < m.applied);
  }

  lemma AppliedSlot(m: Scene, n: Scene, s: nat)
    requires Steady(m) && Ordered(m) && m.applied < |m.stream| && s < |m.playing| && s == m.stream[m.applied].playing.slot
    requires n == m.(playing := AfterRecord(m.playing, m.epoch, Record(m.stream[m.applied])), applied := m.applied + 1)
    ensures Attended(n, s)
  {
    hide OnceOnly, QueuesOk, Started, B.Orderly, B.HasStart;
    assert Attended(m, s);
    RecordedIsHandedOut(m, m.applied, Record(m.stream[m.applied]).playing);
    if S.Alive(m.playing[s]) && m.stream[m.applied].playing == Native(Holder(m, s)) && m.stream[m.applied].kind != B.Started {
      EndFindsRunning(m, s);
      assert Expected(m.playing[s], m.stream[m.applied], false);
    }
  }

  ghost predicate Ends(voices: seq<B.Voice>, n: nat, stopped: nat -> bool, releases: nat -> bool, c: B.Completion)
    requires n <= |voices|
  {
    var i := c.playing.slot;
    i < n && B.Live(voices[i]) && stopped(i) && releases(i) && c == B.LastRecord(voices[i])
  }

  /** The records of a poll are the last ones of the voices that have ended and could be released. */
  ghost predicate AllEnd(voices: seq<B.Voice>, n: nat, stopped: nat -> bool, releases: nat -> bool, records: seq<B.Completion>)
    requires n <= |voices|
  {
    && (forall k :: 0 <= k < |records| ==> Ends(voices, n, stopped, releases, records[k]))
    && (forall i: nat :: i < n && B.Live(voices[i]) && stopped(i) && releases(i) ==> B.LastRecord(voices[i]) in records)
  }

  lemma {:induction false} PollsAreEnds(voices: seq<B.Voice>, n: nat, stopped: nat -> bool, releases: nat -> bool)
    requires n <= |voices| && forall i :: 0 <= i < n && B.Live(voices[i]) ==> voices[i].playing.slot == i
    ensures AllEnd(voices, n, stopped, releases, B.PollRecords(voices, n, stopped, releases))
  {
    if n > 0 {
      PollsAreEnds(voices, n - 1, stopped, releases);
      OneMoreEnds(voices, n - 1, stopped, releases, B.PollRecords(voices, n - 1, stopped, releases));
    }
  }

  lemma OneMoreEnds(voices: seq<B.Voice>, n: nat, stopped: nat -> bool, releases: nat -> bool, records: seq<B.Completion>)
    requires n < |voices| && (B.Live(voices[n]) ==> voices[n].playing.slot == n) && AllEnd(voices, n, stopped, releases, records)
    ensures AllEnd(voices, n + 1, stopped, releases, records + B.PollRecord(voices[n], stopped(n), releases(n)))
  {
    forall k | 0 <= k < |records| ensures Ends(voices, n + 1, stopped, releases, records[k]) {
      assert Ends(voices, n, stopped, releases, records[k]);
    }
  }

  /** Voices have ended. */
  lemma PolledIsAttended(m: Scene, stopped: nat -> bool, releases: nat -> bool, voices: seq<B.Voice>)
    requires Steady(m) && Ordered(m) && B.PolledTo(m.voices, |m.voices|, stopped, releases, voices)
    ensures Steady(m.(stream := m.stream + B.PollRecords(m.voices, |m.voices|, stopped, releases), voices := voices))
  {
    var records := B.PollRecords(m.voices, |m.voices|, stopped, releases);
    var n := m.(stream := m.stream + records, voices := voices);
    PollsAreEnds(m.voices, |m.voices|, stopped, releases);
    forall s: nat | s < |n.playing| ensures Attended(n, s) {
      PolledSlot(m, stopped, releases, n, s);
    }
  }

  lemma PolledSlot(m: Scene, stopped: nat -> bool, releases: nat -> bool, n: Scene, s: nat)
    requires Steady(m) && s < |m.playing| && |n.voices| == |m.voices| && n.voices[s] == B.AfterPoll(m.voices[s], stopped(s), releases(s))
    requires var records := B.PollRecords(m.voices, |m.voices|, stopped, releases);
      && n == m.(stream := m.stream + records, voices := n.voices)
      && AllEnd(m.voices, |m.voices|, stopped, releases, records)
    ensures Attended(n, s)
  {
    hide QueuesOk, B.HasStart, B.PollRecords, B.PollRecord;
    var records := B.PollRecords(m.voices, |m.voices|, stopped, releases);
    assert Attended(m, s);
    var h := Holder(m, s);
    assert Started(m.stream, h) ==> Started(n.stream, h) by {
      StreamStarts(m.stream, records, h);
    }
    assert B.HasEnd(m.stream, Native(h)) ==> B.HasEnd(n.stream, Native(h)) by {
      assert m.stream <= n.stream;
    }
    if B.Live(m.voices[s]) && stopped(s) && releases(s) {
      var k :| 0 <= k < |records| && records[k] == B.LastRecord(m.voices[s]);
      assert n.stream[|m.stream| + k] == records[k];
    }
    forall k | |m.stream| <= k < |n.stream| && n.stream[k].playing == Native(h)
      ensures Ends(m.voices, |m.voices|, stopped, releases, n.stream[k])
    {
      assert n.stream[k] == records[k - |m.stream|];
    }
  }
}
