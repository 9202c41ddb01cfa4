/** The audio system over the voice backend: what is played goes from one to the other through the
    command queue, and the records of what became of it come back. */
module AudioPlayback {
  import opened PlaybackScene
  import opened Wrappers
  import S = AudioSystem
  import B = VoiceBackend

  class Playback {
    const system: S.AudioSystem
    const backend: B.VoiceBackend
    /** Plays and stops that have not been submitted. */
    var plays: seq<S.Command>
    var stops: seq<S.Command>
    /** How many of the backend's records have been applied to the slots. */
    ghost var applied: nat

    ghost function Here(): (m: Scene)
      reads this, system.playing, backend, backend.voices
    {
      Scene(system.playing[..], system.epoch, plays, stops, backend.stream, applied, backend.voices[..])
    }

    /** Also while drained records are being applied. */
    ghost predicate Working()
      reads this, system, system.playing, system.emitters, backend, backend.voices, backend.completions
    {
      system.Valid() && backend.Valid() && Ordered(Here()) && Steady(Here())
    }

    ghost predicate Valid()
      reads this, system, system.playing, system.emitters, backend, backend.voices, backend.completions
    {
      Working() && applied == backend.drained
    }

    constructor (epoch: nat, maxPlaying: nat, maxEmitters: nat, completionCapacity: nat)
      requires epoch != 0 && maxPlaying > 0 && completionCapacity >= 2 && completionCapacity >= maxPlaying * 2
      ensures Valid() && plays == [] && stops == []
    {
      var s := new S.AudioSystem(epoch, maxPlaying, maxEmitters);
      var b := new B.VoiceBackend(maxPlaying, completionCapacity);
      system, backend, plays, stops, applied := s, b, [], [], 0;
      new;
      hide OnceOnly, Steady, B.Orderly, B.UnderWay, S.Sound, B.Rings;
      SoundSlots(system.playing[..], system.emitters[..], epoch);
      SilenceIsSteady(Here());
    }

    /** Queue a play under a handle that nobody has had before. */
    method PlayEvent(known: bool, emitter: S.Handle, room: bool) returns (result: S.AudioResult, h: S.Handle)
      requires Valid()
      modifies this`plays, system`nextSlot, system`nextSequence, system.playing, system.emitters
      ensures Valid()
      ensures result == S.Pending ==>
        && !HandedOut(old(system.playing[..]), system.epoch, h) && HandedOut(system.playing[..], system.epoch, h)
        && plays == old(plays) + [S.PlayCommand(h, old(system.nextSequence))]
      ensures result != S.Pending ==> plays == old(plays) && system.playing[..] == old(system.playing[..])
    {
      hide OnceOnly, Steady, B.Orderly, B.UnderWay, S.Sound, S.FirstReusable, S.Counting, B.Rings;
      ghost var m := Here();
      var sequence := system.nextSequence;
      result, h := system.PlayEvent(known, emitter, room);
      SoundSlots(system.playing[..], system.emitters[..], system.epoch);
      if result == S.Pending {
        NextIsNew(m.playing, m.epoch, m.plays, m.stream, h, system.playing[h.slot], sequence);
        QueuedIsAttended(m, h, system.playing[h.slot], sequence);
        plays := plays + [S.PlayCommand(h, sequence)];
      }
    }

    /** Submit the oldest play. The backend has never started its handle; if it refuses, the voice has
        failed. */
    method SubmitPlay(known: bool, creation: B.Creation, refusal: Option<B.AudioResult>, releases: bool) returns (result: B.AudioResult)
      requires Valid() && plays != [] && (refusal.Some? ==> refusal.value !in {B.Ok, B.Pending})
      modifies this`plays, system.playing, system.emitters
      modifies backend`writeCell, backend`count, backend`reserved, backend`stream, backend.voices, backend.completions
      ensures Valid() && plays == old(plays)[1..] && !Started(old(backend.stream), old(plays)[0].playing)
      ensures result == B.Ok <==> Started(backend.stream, old(plays)[0].playing)
      ensures result != B.Ok ==> backend.stream == old(backend.stream)
      ensures system.playing[..] == if result in {B.Ok, B.Pending} then old(system.playing[..])
                                    else AfterRefusal(old(system.playing[..]), system.epoch, old(plays)[0])
    {
      hide OnceOnly, Steady, B.HasStart, B.Orderly, B.UnderWay, B.Rings, S.Sound;
      ghost var m := Here();
      HeadIsNew(m.playing, m.epoch, m.plays, m.stream);
      var command := plays[0];
      result := backend.Play(Native(command.playing), command.sequence, known, creation, refusal, releases);
      plays := plays[1..];
      PlayedOnce(m, result);
      if result != B.Ok && result != B.Pending {
        FailedIsAttended(m, backend.voices[..]);
        system.FailSubmission(command);
        SameGenerationsKeep(m.playing, system.playing[..], system.epoch, plays, backend.stream);
      } else {
        StartedIsAttended(m, backend.voices[command.playing.slot]);
      }
    }

    method StopEvent(h: S.Handle, room: bool) returns (result: S.AudioResult)
      requires Valid()
      modifies this`stops, system`nextSequence, system.playing
      ensures Valid() && SameGenerations(old(system.playing[..]), system.playing[..])
      ensures stops == old(stops) + if result == S.Pending then [S.StopCommand(h, old(system.nextSequence))] else []
    {
      hide OnceOnly, Steady, B.Orderly, B.UnderWay, S.Sound, B.Rings;
      ghost var m := Here();
      var sequence := system.nextSequence;
      result := system.StopEvent(h, room);
      SameGenerationsKeep(m.playing, system.playing[..], system.epoch, plays, backend.stream);
      if result == S.Pending {
        StoppingIsAttended(m, h, sequence);
        stops := stops + [S.StopCommand(h, sequence)];
      }
    }

    /** Submit the oldest stop; one that is refused puts back what the voice was. */
    method SubmitStop(native: bool) returns (result: B.AudioResult)
      requires Valid() && stops != []
      modifies this`stops, system.playing, system.emitters, backend.voices
      ensures Valid() && stops == old(stops)[1..] && backend.stream == old(backend.stream)
      ensures system.playing[..] == if result in {B.Ok, B.Pending} then old(system.playing[..])
                                    else AfterRefusal(old(system.playing[..]), system.epoch, old(stops)[0])
    {
      hide OnceOnly, Steady, B.Orderly, B.UnderWay, S.Sound, B.Rings;
      ghost var m := Here();
      var command := stops[0];
      result := backend.Stop(Native(command.playing), command.sequence, native);
      stops := stops[1..];
      if result != B.Ok && result != B.Pending {
        system.FailSubmission(command);
        RefusedIsAttended(m);
        SameGenerationsKeep(m.playing, system.playing[..], system.epoch, plays, backend.stream);
      } else {
        VoiceIsInPlace(m, command.playing.slot);
        AskedIsAttended(m);
      }
    }

    /** Voices that have ended write their last record. */
    method Poll(stopped: nat -> bool, releases: nat -> bool)
      requires Valid()
      modifies backend`writeCell, backend`count, backend`reserved, backend`stream, backend.voices, backend.completions
      ensures Valid()
      ensures backend.stream == old(backend.stream) + B.PollRecords(old(backend.voices[..]), backend.voices.Length, stopped, releases)
    {
      hide OnceOnly, Steady, B.Orderly, B.UnderWay, S.Sound, B.Rings, B.PolledTo, B.PollRecords;
      ghost var m := Here();
      backend.PollVoices(stopped, releases);
      PollsOnlyEnd(m.voices, |m.voices|, stopped, releases);
      EndsKeep(m.playing, m.epoch, plays, m.stream, B.PollRecords(m.voices, |m.voices|, stopped, releases));
      PolledIsAttended(m, stopped, releases, backend.voices[..]);
    }

    method TakeRecords() returns (records: seq<B.Completion>)
      requires Valid()
      modifies backend`readCell, backend`count, backend`drained
      ensures Working() && backend.drained == |backend.stream| && applied <= |backend.stream|
      ensures records == backend.stream[applied..]
    {
      hide OnceOnly, Steady, B.Orderly, B.UnderWay, S.Sound;
      records := backend.Drain(backend.count);
    }

    /** Apply the next record that was drained. */
    method ApplyRecord(c: B.Completion)
      requires Working() && applied < |backend.stream| && c == backend.stream[applied]
      modifies system.playing, system.emitters, this`applied
      ensures Working() && applied == old(applied) + 1
      ensures system.playing[..] == AfterRecord(old(system.playing[..]), system.epoch, Record(c))
    {
      hide OnceOnly, Steady, B.Orderly, B.UnderWay, S.Sound, B.Rings;
      ghost var m := Here();
      var done := system.ApplyCompletion(Record(c));
      applied := applied + 1;
      SameGenerationsKeep(m.playing, system.playing[..], system.epoch, plays, backend.stream);
      AppliedIsAttended(m);
    }

    /** Apply every record there is, oldest first. */
    method DrainCompletions()
      requires Valid()
      modifies system.playing, system.emitters, backend`readCell, backend`count, backend`drained, this`applied
      ensures Valid() && backend.drained == |backend.stream| && old(backend.drained) <= |backend.stream|
      ensures system.playing[..] == AfterRecords(old(system.playing[..]), system.epoch, backend.stream[old(backend.drained)..])
    {
      hide Working, AfterRecord, AfterRecords;
      var records := TakeRecords();
      ghost var m := Here();
      for i := 0 to |records|
        invariant Working() && backend.drained == |backend.stream| && applied == m.applied + i
        invariant system.playing[..] == AfterRecords(m.playing, system.epoch, records[..i])
      {
        OneMoreRecord(m.playing, system.epoch, records, i);
        ApplyRecord(records[i]);
      }
      assert records[..|records|] == records;
    }
  }
}
