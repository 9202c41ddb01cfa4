/** Playing slots and emitters of the audio system: an emitter counts the voices that still need it. */
module AudioSystem {
  import opened Wrappers

  const UINT32_MAX: nat := 0xFFFF_FFFF

  datatype Handle = Handle(slot: nat, generation: nat, epoch: nat)

  const NO_EMITTER: Handle := Handle(0, 0, 0)

  datatype Playback = Free | Queued | Playing | Stopping | Finished | Failed

  datatype PlayingSlot = PlayingSlot(startSequence: nat, stopSequence: nat, generation: nat, state: Playback, beforeStop: Playback, emitter: Handle)

  datatype SpatialState = Vacant | Active | Releasing

  datatype SpatialSlot = SpatialSlot(generation: nat, activeVoices: nat, state: SpatialState)

  datatype AudioResult = Ok | Pending | InvalidHandle | InvalidArgument | Capacity | Busy

  datatype CompletionKind = Started | FinishedPlaying | Stopped | FailedToStart

  datatype Completion = Completion(playing: Handle, sequence: nat, kind: CompletionKind)

  datatype Command = PlayCommand(playing: Handle, sequence: nat) | StopCommand(playing: Handle, sequence: nat)

  /** The slot's voice has neither ended nor failed. */
  ghost predicate Alive(p: PlayingSlot)
  {
    p.state == Queued || p.state == Playing || p.state == Stopping
  }

  ghost predicate Needs(p: PlayingSlot, emitter: Handle)
  {
    Alive(p) && p.emitter == emitter
  }

  ghost function Voices(playing: seq<PlayingSlot>, emitter: Handle): (n: nat)
    ensures n <= |playing|
  {
    if playing == [] then 0
    else Voices(playing[..|playing| - 1], emitter) + if Needs(playing[|playing| - 1], emitter) then 1 else 0
  }

  lemma {:induction false} VoicesChange(playing: seq<PlayingSlot>, i: nat, p: PlayingSlot, emitter: Handle)
    requires i < |playing|
    ensures Voices(playing[i := p], emitter) + (if Needs(playing[i], emitter) then 1 else 0)
         == Voices(playing, emitter) + (if Needs(p, emitter) then 1 else 0)
    ensures Needs(playing[i], emitter) ==> Voices(playing, emitter) > 0
  {
    var last := |playing| - 1;
    if i < last {
      VoicesChange(playing[..last], i, p, emitter);
      assert playing[i := p][..last] == playing[..last][i := p];
    } else {
      assert playing[i := p][..last] == playing[..last];
    }
  }

  lemma {:induction false} NoVoices(playing: seq<PlayingSlot>, emitter: Handle)
    requires forall i :: 0 <= i < |playing| ==> !Alive(playing[i])
    ensures Voices(playing, emitter) == 0
  {
    if playing != [] {
      NoVoices(playing[..|playing| - 1], emitter);
    }
  }

  ghost predicate SlotOk(p: PlayingSlot)
  {
    (p.state == Stopping ==> p.beforeStop == Queued || p.beforeStop == Playing) && p.generation <= UINT32_MAX
  }

  /** Every emitter counts exactly the voices that need it. One that is not active has none, and a
      voice that needs an emitter finds it active with the generation it was played on. */
  ghost predicate EmittersCount(playing: seq<PlayingSlot>, emitters: seq<SpatialSlot>, epoch: nat)
  {
    && (forall e :: 0 <= e < |emitters| ==>
          && emitters[e].activeVoices == Voices(playing, Handle(e, emitters[e].generation, epoch))
          && emitters[e].generation <= UINT32_MAX
          && (emitters[e].state != Active ==> emitters[e].activeVoices == 0))
    && (forall i :: 0 <= i < |playing| && Alive(playing[i]) && playing[i].emitter.epoch != 0 ==>
          && playing[i].emitter.epoch == epoch && playing[i].emitter.slot < |emitters|
          && emitters[playing[i].emitter.slot].generation == playing[i].emitter.generation
          && emitters[playing[i].emitter.slot].state == Active)
  }

  ghost predicate Sound(playing: seq<PlayingSlot>, emitters: seq<SpatialSlot>, epoch: nat)
  {
    epoch != 0 && (forall i :: 0 <= i < |playing| ==> SlotOk(playing[i])) && EmittersCount(playing, emitters, epoch)
  }

  ghost predicate ValidEmitter(emitters: seq<SpatialSlot>, epoch: nat, h: Handle)
  {
    h.epoch == epoch && h.slot < |emitters| && h.generation != 0 && emitters[h.slot].generation == h.generation && emitters[h.slot].state == Active
  }

  ghost predicate ValidPlaying(playing: seq<PlayingSlot>, epoch: nat, h: Handle)
  {
    h.epoch == epoch && h.slot < |playing| && h.generation != 0 && playing[h.slot].generation == h.generation && playing[h.slot].state != Free
  }

  /** An emitter that may be given away to somebody else is needed by no voice. */
  lemma VacantIsUnneeded(playing: seq<PlayingSlot>, emitters: seq<SpatialSlot>, epoch: nat, e: nat, i: nat)
    requires Sound(playing, emitters, epoch) && e < |emitters| && i < |playing| && emitters[e].state != Active
    ensures !(Alive(playing[i]) && playing[i].emitter.epoch != 0 && playing[i].emitter.slot == e)
  {
  }

  // ---------------------------------------------------------------- what a step does to the two tables

  ghost function Counting(emitters: seq<SpatialSlot>, e: nat, change: int): seq<SpatialSlot>
    requires e < |emitters| && emitters[e].activeVoices + change >= 0
  {
    emitters[e := emitters[e].(activeVoices := emitters[e].activeVoices + change)]
  }

  lemma CountsChange(playing: seq<PlayingSlot>, emitters: seq<SpatialSlot>, epoch: nat, i: nat, p: PlayingSlot)
    requires i < |playing|
    ensures forall e :: 0 <= e < |emitters| ==>
      var h := Handle(e, emitters[e].generation, epoch);
      && Voices(playing[i := p], h) + (if Needs(playing[i], h) then 1 else 0) == Voices(playing, h) + (if Needs(p, h) then 1 else 0)
      && (Needs(playing[i], h) ==> Voices(playing, h) > 0)
  {
    forall e | 0 <= e < |emitters|
      ensures var h := Handle(e, emitters[e].generation, epoch);
        && Voices(playing[i := p], h) + (if Needs(playing[i], h) then 1 else 0) == Voices(playing, h) + (if Needs(p, h) then 1 else 0)
        && (Needs(playing[i], h) ==> Voices(playing, h) > 0)
    {
      VoicesChange(playing, i, p, Handle(e, emitters[e].generation, epoch));
    }
  }

  /** A slot that is still alive, or still not, and keeps its emitter changes no count. */
  lemma SameLife(playing: seq<PlayingSlot>, emitters: seq<SpatialSlot>, epoch: nat, i: nat, p: PlayingSlot)
    requires Sound(playing, emitters, epoch) && i < |playing| && SlotOk(p)
    requires Alive(p) == Alive(playing[i]) && (Alive(p) ==> p.emitter == playing[i].emitter)
    ensures Sound(playing[i := p], emitters, epoch)
  {
    CountsChange(playing, emitters, epoch, i, p);
  }

  lemma VoiceBegins(playing: seq<PlayingSlot>, emitters: seq<SpatialSlot>, epoch: nat, i: nat, p: PlayingSlot)
    requires Sound(playing, emitters, epoch) && i < |playing| && SlotOk(p) && !Alive(playing[i]) && Alive(p)
    requires p.emitter.epoch == 0 || ValidEmitter(emitters, epoch, p.emitter)
    ensures Sound(playing[i := p], if p.emitter.epoch == 0 then emitters else Counting(emitters, p.emitter.slot, 1), epoch)
  {
    CountsChange(playing, emitters, epoch, i, p);
  }

  /** The source lowers a count only if it is not zero; for a voice that needs the emitter it never is. */
  lemma VoiceEnds(playing: seq<PlayingSlot>, emitters: seq<SpatialSlot>, epoch: nat, i: nat, p: PlayingSlot)
    requires Sound(playing, emitters, epoch) && i < |playing| && SlotOk(p) && Alive(playing[i]) && !Alive(p)
    ensures var h := playing[i].emitter;
      if h.epoch == 0 then Sound(playing[i := p], emitters, epoch)
      else
        && h.epoch == epoch && h.slot < |emitters| && emitters[h.slot].generation == h.generation
        && emitters[h.slot].activeVoices > 0 && Sound(playing[i := p], Counting(emitters, h.slot, -1), epoch)
  {
    CountsChange(playing, emitters, epoch, i, p);
  }

  lemma {:induction false} Unneeded(playing: seq<PlayingSlot>, emitter: Handle)
    requires forall i :: 0 <= i < |playing| ==> !Needs(playing[i], emitter)
    ensures Voices(playing, emitter) == 0
  {
    if playing != [] {
      Unneeded(playing[..|playing| - 1], emitter);
    }
  }

  /** A vacant emitter can be handed out under a new generation. */
  lemma EmitterIsReused(playing: seq<PlayingSlot>, emitters: seq<SpatialSlot>, epoch: nat, e: nat)
    requires Sound(playing, emitters, epoch) && e < |emitters| && emitters[e].state == Vacant && emitters[e].generation < UINT32_MAX
    ensures Sound(playing, emitters[e := SpatialSlot(emitters[e].generation + 1, 0, Active)], epoch)
  {
    Unneeded(playing, Handle(e, emitters[e].generation + 1, epoch));
  }

  lemma StateOnly(playing: seq<PlayingSlot>, emitters: seq<SpatialSlot>, epoch: nat, e: nat, state: SpatialState)
    requires Sound(playing, emitters, epoch) && e < |emitters| && emitters[e].activeVoices == 0
    ensures Sound(playing, emitters[e := emitters[e].(state := state)], epoch)
  {
    forall i | 0 <= i < |playing| && Alive(playing[i]) && playing[i].emitter.epoch != 0 ensures playing[i].emitter.slot != e {
      VoicesChange(playing, i, playing[i], playing[i].emitter);
    }
  }

  // ---------------------------------------------------------------- what a completion does to a slot

  /** The slot after a record that concerns it, or nothing if the record is stale or out of turn. */
  ghost function Completed(p: PlayingSlot, c: Completion): (p': Option<PlayingSlot>)
  {
    match c.kind
    case Started =>
      if c.sequence != p.startSequence then None
      else if p.state == Queued then Some(p.(state := Playing))
      else if p.state == Stopping && p.beforeStop == Queued then Some(p.(beforeStop := Playing))
      else None
    case FailedToStart =>
      if c.sequence == p.startSequence && (p.state == Queued || p.state == Stopping) then Some(p.(state := Failed))
      else if c.sequence == p.stopSequence && p.state == Stopping then Some(p.(state := p.beforeStop, stopSequence := 0))
      else None
    case Stopped => if c.sequence == p.stopSequence && p.state == Stopping then Some(p.(state := Finished)) else None
    case FinishedPlaying =>
      if c.sequence == p.startSequence && (p.state == Playing || p.state == Stopping) then Some(p.(state := Finished)) else None
  }

  /** The slot after the backend refused a command. */
  ghost function Refused(p: PlayingSlot, command: Command): (p': PlayingSlot)
  {
    match command
    case PlayCommand(_, sequence) => if p.startSequence == sequence then p.(state := Failed) else p
    case StopCommand(_, sequence) =>
      if p.state == Stopping && p.stopSequence == sequence then p.(state := p.beforeStop, stopSequence := 0) else p
  }

  /** Emitters after a slot has changed: the one it needed counts a voice less if it needs it no more. */
  ghost function Settled(emitters: seq<SpatialSlot>, epoch: nat, was: PlayingSlot, now: PlayingSlot): (emitters': seq<SpatialSlot>)
  {
    if Alive(was) && !Alive(now) && was.emitter.epoch == epoch && was.emitter.slot < |emitters|
      && emitters[was.emitter.slot].generation == was.emitter.generation && emitters[was.emitter.slot].activeVoices != 0
    then Counting(emitters, was.emitter.slot, -1) else emitters
  }

  ghost predicate Reusable(p: PlayingSlot)
  {
    !Alive(p) && p.generation != UINT32_MAX
  }

  ghost predicate Registrable(e: SpatialSlot)
  {
    e.state == Vacant && e.generation != UINT32_MAX
  }

  /** The cell so many places on from a cursor, going round. */
  ghost function Cell(cursor: nat, offset: nat, length: nat): (cell: nat)
    requires cursor < length && offset < length
    ensures cell < length
  {
    if cursor + offset < length then cursor + offset else cursor + offset - length
  }

  /** The code takes the remainder. */
  lemma CellIsRemainder(cursor: nat, offset: nat, length: nat)
    requires cursor < length && offset < length
    ensures (cursor + offset) % length == Cell(cursor, offset, length)
  {
    if cursor + offset >= length {
      assert cursor + offset == length + (cursor + offset - length);
    }
  }

  /** The first slot from the cursor on, going round, that can take a voice. */
  ghost predicate FirstReusable(playing: seq<PlayingSlot>, cursor: nat, s: nat)
  {
    && cursor < |playing| && s < |playing| && Reusable(playing[s])
    && exists a: nat ::
         && a < |playing| && s == Cell(cursor, a, |playing|)
         && forall b: nat :: b < a ==> !Reusable(playing[Cell(cursor, b, |playing|)])
  }

  /** The first emitter from the cursor on, going round, that can be registered. */
  ghost predicate FirstRegistrable(emitters: seq<SpatialSlot>, cursor: nat, e: nat)
  {
    && cursor < |emitters| && e < |emitters| && Registrable(emitters[e])
    && exists a: nat ::
         && a < |emitters| && e == Cell(cursor, a, |emitters|)
         && forall b: nat :: b < a ==> !Registrable(emitters[Cell(cursor, b, |emitters|)])
  }

  class AudioSystem {
    const epoch: nat
    const playing: array<PlayingSlot>
    const emitters: array<SpatialSlot>
    var nextSlot: nat
    var nextEmitterSlot: nat
    var nextSequence: nat

    ghost predicate Valid()
      reads this, playing, emitters
    {
      && nextSlot < playing.Length && (nextEmitterSlot < emitters.Length || emitters.Length == 0)
      && Sound(playing[..], emitters[..], epoch)
    }

    constructor (epoch: nat, maxPlaying: nat, maxEmitters: nat)
      requires epoch != 0 && maxPlaying > 0
      ensures Valid() && fresh(playing) && fresh(emitters) && this.epoch == epoch
      ensures playing.Length == maxPlaying && emitters.Length == maxEmitters
      ensures forall s :: 0 <= s < maxPlaying ==> playing[s].state == Free
      ensures forall e :: 0 <= e < maxEmitters ==> emitters[e].state == Vacant
    {
      this.epoch := epoch;
      playing := new PlayingSlot[maxPlaying](i => PlayingSlot(0, 0, 0, Free, Free, NO_EMITTER));
      emitters := new SpatialSlot[maxEmitters](i => SpatialSlot(0, 0, Vacant));
      nextSlot, nextEmitterSlot, nextSequence := 0, 0, 1;
      new;
      forall h: Handle ensures Voices(playing[..], h) == 0 {
        NoVoices(playing[..], h);
      }
    }

    method IsValid(h: Handle) returns (valid: bool)
      ensures valid == ValidPlaying(playing[..], epoch, h)
    {
      valid := h.epoch == epoch && h.slot < playing.Length && h.generation != 0
               && playing[h.slot].generation == h.generation && playing[h.slot].state != Free;
    }

    method IsValidEmitter(h: Handle) returns (valid: bool)
      ensures valid == ValidEmitter(emitters[..], epoch, h)
    {
      valid := h.epoch == epoch && h.slot < emitters.Length && h.generation != 0
               && emitters[h.slot].generation == h.generation && emitters[h.slot].state == Active;
    }

    /** Queue a voice. Whether its event is known and whether the command queue has room are parameters. */
    method PlayEvent(known: bool, emitter: Handle, accepted: bool) returns (result: AudioResult, h: Handle)
      requires Valid()
      modifies this`nextSlot, this`nextSequence, playing, emitters
      ensures Valid()
      ensures result == if (if emitter.epoch == 0 then emitter != NO_EMITTER else !ValidEmitter(old(emitters[..]), epoch, emitter)) then InvalidHandle
                        else if !known then InvalidArgument
                        else if (forall s :: 0 <= s < playing.Length ==> !Reusable(old(playing[s]))) || !accepted then Capacity
                        else Pending
      ensures result == Pending ==>
        && h.epoch == epoch && FirstReusable(old(playing[..]), old(nextSlot), h.slot) && h.generation == old(playing[h.slot]).generation + 1
        && playing[..] == old(playing[..])[h.slot := PlayingSlot(old(nextSequence), 0, h.generation, Queued, old(playing[h.slot]).beforeStop, emitter)]
        && emitters[..] == (if emitter.epoch == 0 then old(emitters[..]) else Counting(old(emitters[..]), emitter.slot, 1))
        && nextSlot == (if h.slot + 1 == playing.Length then 0 else h.slot + 1) && nextSequence == old(nextSequence) + 1
      ensures result != Pending ==> playing[..] == old(playing[..]) && emitters[..] == old(emitters[..]) && nextSlot == old(nextSlot)
    {
      h := NO_EMITTER;
      if emitter.epoch == 0 {
        if emitter.slot != 0 || emitter.generation != 0 {
          return InvalidHandle, h;
        }
      } else {
        var valid := IsValidEmitter(emitter);
        if !valid {
          return InvalidHandle, h;
        }
      }
      if !known {
        return InvalidArgument, h;
      }
      var found := FindReusable();
      if found.None? {
        return Capacity, h;
      }
      nextSequence := nextSequence + 1;
      if !accepted {
        return Capacity, h;
      }
      h := Handle(found.value, playing[found.value].generation + 1, epoch);
      Begin(found.value, emitter, nextSequence - 1);
      nextSlot := if found.value + 1 == playing.Length then 0 else found.value + 1;
      return Pending, h;
    }

    /** The first slot from the cursor on that holds no live voice and has a generation left. */
    method FindReusable() returns (found: Option<nat>)
      requires nextSlot < playing.Length
      ensures found.None? <==> forall s :: 0 <= s < playing.Length ==> !Reusable(playing[s])
      ensures found.Some? ==> FirstReusable(playing[..], nextSlot, found.value)
    {
      for attempt: nat := 0 to playing.Length
        invariant forall b :: 0 <= b < attempt ==> !Reusable(playing[Cell(nextSlot, b, playing.Length)])
      {
        CellIsRemainder(nextSlot, attempt, playing.Length);
        var s := (nextSlot + attempt) % playing.Length;
        var slot := playing[s];
        if (slot.state == Free || slot.state == Finished || slot.state == Failed) && slot.generation != UINT32_MAX {
          assert playing[..][s] == slot;
          return Some(s);
        }
      }
      forall s: nat | s < playing.Length ensures !Reusable(playing[s]) {
        assert s == Cell(nextSlot, if s >= nextSlot then s - nextSlot else s + playing.Length - nextSlot, playing.Length);
      }
      return None;
    }

    method Begin(s: nat, emitter: Handle, sequence: nat)
      requires Sound(playing[..], emitters[..], epoch) && s < playing.Length && Reusable(playing[s])
      requires emitter == NO_EMITTER || ValidEmitter(emitters[..], epoch, emitter)
      modifies playing, emitters
      ensures Sound(playing[..], emitters[..], epoch)
      ensures playing[..] == old(playing[..])[s :=
        PlayingSlot(sequence, 0, old(playing[s]).generation + 1, Queued, old(playing[s]).beforeStop, emitter)]
      ensures emitters[..] == if emitter.epoch == 0 then old(emitters[..]) else Counting(old(emitters[..]), emitter.slot, 1)
    {
      var p := PlayingSlot(sequence, 0, playing[s].generation + 1, Queued, playing[s].beforeStop, emitter);
      VoiceBegins(playing[..], emitters[..], epoch, s, p);
      hide Sound;
      ghost var were, held := playing[..], emitters[..];
      playing[s] := p;
      assert playing[..] == were[s := p];
      if emitter.epoch != 0 {
        emitters[emitter.slot] := emitters[emitter.slot].(activeVoices := emitters[emitter.slot].activeVoices + 1);
        assert emitters[..] == Counting(held, emitter.slot, 1);
      }
    }

    method StopEvent(h: Handle, accepted: bool) returns (result: AudioResult)
      requires Valid()
      modifies this`nextSequence, playing
      ensures Valid()
      ensures result == if !ValidPlaying(old(playing[..]), epoch, h) || old(playing[h.slot]).state !in {Queued, Playing} then InvalidHandle
                        else if !accepted then Capacity else Pending
      ensures playing[..] == if result != Pending then old(playing[..])
                             else old(playing[..])[h.slot := old(playing[h.slot]).(
                               stopSequence := old(nextSequence), beforeStop := old(playing[h.slot]).state, state := Stopping)]
    {
      var valid := IsValid(h);
      if !valid || playing[h.slot].state == Finished || playing[h.slot].state == Failed
        || playing[h.slot].state == Stopping {
        return InvalidHandle;
      }
      var sequence := nextSequence;
      nextSequence := nextSequence + 1;
      if !accepted {
        return Capacity;
      }
      var p := playing[h.slot].(stopSequence := sequence, beforeStop := playing[h.slot].state, state := Stopping);
      SameLife(playing[..], emitters[..], epoch, h.slot, p);
      ghost var were := playing[..];
      playing[h.slot] := p;
      assert playing[..] == were[h.slot := p];
      return Pending;
    }

    /** Change a slot; if its voice ends by that, its emitter counts one less. */
    method Settle(s: nat, p: PlayingSlot)
      requires Valid() && s < playing.Length && SlotOk(p) && p.emitter == playing[s].emitter && (Alive(p) ==> Alive(playing[s]))
      modifies playing, emitters
      ensures Valid() && playing[..] == old(playing[..])[s := p]
      ensures emitters[..] == Settled(old(emitters[..]), epoch, old(playing[s]), p)
    {
      var was := playing[s];
      var ends := was.state != Free && was.state != Finished && was.state != Failed
                  && (p.state == Free || p.state == Finished || p.state == Failed);
      if ends {
        VoiceEnds(playing[..], emitters[..], epoch, s, p);
      } else {
        SameLife(playing[..], emitters[..], epoch, s, p);
      }
      hide Sound;
      ghost var were, held := playing[..], emitters[..];
      if ends && was.emitter.epoch == epoch && was.emitter.slot < emitters.Length {
        var e := was.emitter.slot;
        if emitters[e].generation == was.emitter.generation && emitters[e].activeVoices != 0 {
          emitters[e] := emitters[e].(activeVoices := emitters[e].activeVoices - 1);
          assert emitters[..] == Counting(held, e, -1);
        }
      }
      playing[s] := p;
      assert playing[..] == were[s := p];
    }

    method ApplyCompletion(c: Completion) returns (applied: bool)
      requires Valid()
      modifies playing, emitters
      ensures Valid()
      ensures applied == (ValidPlaying(old(playing[..]), epoch, c.playing) && Completed(old(playing[c.playing.slot]), c).Some?)
      ensures applied ==> var p := Completed(old(playing[c.playing.slot]), c).value;
        && playing[..] == old(playing[..])[c.playing.slot := p]
        && emitters[..] == Settled(old(emitters[..]), epoch, old(playing[c.playing.slot]), p)
      ensures !applied ==> playing[..] == old(playing[..]) && emitters[..] == old(emitters[..])
    {
      var valid := IsValid(c.playing);
      if !valid {
        return false;
      }
      var s := c.playing.slot;
      var slot := playing[s];
      assert SlotOk(slot);
      hide Sound, Settled;
      match c.kind {
        case Started =>
          if c.sequence == slot.startSequence {
            if slot.state == Queued {
              Settle(s, slot.(state := Playing));
              return true;
            }
            if slot.state == Stopping && slot.beforeStop == Queued {
              Settle(s, slot.(beforeStop := Playing));
              return true;
            }
          }
        case FailedToStart =>
          if c.sequence == slot.startSequence && (slot.state == Queued || slot.state == Stopping) {
            Settle(s, slot.(state := Failed));
            return true;
          }
          if c.sequence == slot.stopSequence && slot.state == Stopping {
            Settle(s, slot.(state := slot.beforeStop, stopSequence := 0));
            return true;
          }
        case Stopped =>
          if c.sequence == slot.stopSequence && slot.state == Stopping {
            Settle(s, slot.(state := Finished));
            return true;
          }
        case FinishedPlaying =>
          if c.sequence == slot.startSequence && (slot.state == Playing || slot.state == Stopping) {
            Settle(s, slot.(state := Finished));
            return true;
          }
      }
      return false;
    }

    method FailSubmission(command: Command)
      requires Valid()
      modifies playing, emitters
      ensures Valid()
      ensures if ValidPlaying(old(playing[..]), epoch, command.playing) then
          var was := old(playing[command.playing.slot]);
          && playing[..] == old(playing[..])[command.playing.slot := Refused(was, command)]
          && emitters[..] == Settled(old(emitters[..]), epoch, was, Refused(was, command))
        else playing[..] == old(playing[..]) && emitters[..] == old(emitters[..])
    {
      var valid := IsValid(command.playing);
      if !valid {
        return;
      }
      var s := command.playing.slot;
      var slot := playing[s];
      assert SlotOk(slot);
      assert playing[..] == playing[..][s := slot];
      hide Sound;
      if command.PlayCommand? && slot.startSequence == command.sequence {
        Settle(s, slot.(state := Failed));
      } else if command.StopCommand? && slot.state == Stopping && slot.stopSequence == command.sequence {
        Settle(s, slot.(state := slot.beforeStop, stopSequence := 0));
      }
    }

    method RegisterEmitter() returns (result: AudioResult, h: Handle)
      requires Valid()
      modifies this`nextEmitterSlot, emitters
      ensures Valid()
      ensures result == if forall e :: 0 <= e < emitters.Length ==> !Registrable(old(emitters[e])) then Capacity else Ok
      ensures result == Ok ==>
        && h.epoch == epoch && FirstRegistrable(old(emitters[..]), old(nextEmitterSlot), h.slot) && h.generation == old(emitters[h.slot]).generation + 1
        && emitters[..] == old(emitters[..])[h.slot := SpatialSlot(h.generation, 0, Active)]
      ensures result != Ok ==> emitters[..] == old(emitters[..])
    {
      h := NO_EMITTER;
      var found := FindRegistrable();
      if found.None? {
        return Capacity, h;
      }
      var e := found.value;
      EmitterIsReused(playing[..], emitters[..], epoch, e);
      ghost var held := emitters[..];
      emitters[e] := SpatialSlot(emitters[e].generation + 1, 0, Active);
      assert emitters[..] == held[e := emitters[e]];
      nextEmitterSlot := if e + 1 == emitters.Length then 0 else e + 1;
      return Ok, Handle(e, emitters[e].generation, epoch);
    }

    /** The first emitter from the cursor on that is free and has a generation left. */
    method FindRegistrable() returns (found: Option<nat>)
      requires nextEmitterSlot < emitters.Length || emitters.Length == 0
      ensures found.None? <==> forall e :: 0 <= e < emitters.Length ==> !Registrable(emitters[e])
      ensures found.Some? ==> FirstRegistrable(emitters[..], nextEmitterSlot, found.value)
    {
      for attempt: nat := 0 to emitters.Length
        invariant forall b :: 0 <= b < attempt ==> !Registrable(emitters[Cell(nextEmitterSlot, b, emitters.Length)])
      {
        CellIsRemainder(nextEmitterSlot, attempt, emitters.Length);
        var e := (nextEmitterSlot + attempt) % emitters.Length;
        if emitters[e].state == Vacant && emitters[e].generation != UINT32_MAX {
          assert emitters[..][e] == emitters[e];
          return Some(e);
        }
      }
      forall e: nat | e < emitters.Length ensures !Registrable(emitters[e]) {
        assert e == Cell(nextEmitterSlot, if e >= nextEmitterSlot then e - nextEmitterSlot else e + emitters.Length - nextEmitterSlot,
                         emitters.Length);
      }
      return None;
    }

    /** An emitter is given up only when no voice needs it, and only the backend's answer frees it. */
    method ReleaseEmitter(h: Handle, accepted: bool) returns (result: AudioResult)
      requires Valid()
      modifies this`nextSequence, emitters
      ensures Valid()
      ensures result == if !ValidEmitter(old(emitters[..]), epoch, h) then InvalidHandle
                        else if Voices(playing[..], h) != 0 then Busy
                        else if !accepted then Capacity else Pending
      ensures emitters[..] == if result != Pending then old(emitters[..])
                              else old(emitters[..])[h.slot := old(emitters[h.slot]).(state := Releasing)]
    {
      var valid := IsValidEmitter(h);
      if !valid {
        return InvalidHandle;
      }
      if emitters[h.slot].activeVoices != 0 {
        return Busy;
      }
      nextSequence := nextSequence + 1;
      if !accepted {
        return Capacity;
      }
      StateOnly(playing[..], emitters[..], epoch, h.slot, Releasing);
      ghost var held := emitters[..];
      emitters[h.slot] := emitters[h.slot].(state := Releasing);
      assert emitters[..] == held[h.slot := emitters[h.slot]];
      return Pending;
    }

    method ApplyReleaseResult(h: Handle, succeeded: bool)
      requires Valid()
      modifies emitters
      ensures Valid()
      ensures emitters[..] ==
        if h.epoch == epoch && h.slot < emitters.Length && old(emitters[h.slot]).generation == h.generation && old(emitters[h.slot]).state == Releasing
        then old(emitters[..])[h.slot := old(emitters[h.slot]).(state := if succeeded then Vacant else Active)] else old(emitters[..])
    {
      if h.epoch != epoch || h.slot >= emitters.Length {
        return;
      }
      if emitters[h.slot].generation == h.generation && emitters[h.slot].state == Releasing {
        StateOnly(playing[..], emitters[..], epoch, h.slot, if succeeded then Vacant else Active);
        ghost var held := emitters[..];
        emitters[h.slot] := emitters[h.slot].(state := if succeeded then Vacant else Active);
        assert emitters[..] == held[h.slot := emitters[h.slot]];
      }
    }
  }
}
