// The volume control: a counter of ten steps, mirrored to the mixer, with an
// on-screen volume bar registered on every key press.
module SoundFx {
  import opened Animation

  const VolSteps: int := 10
  /** The mixer's full volume (MIX_MAX_VOLUME of SDL_mixer). */
  const MaxVolume: int := 128
  const VolStep: int := MaxVolume / VolSteps

  /** The mixer volume that stands for a counter value. */
  function ChannelVolume(volume: int): int
  {
    volume * VolStep
  }

  /** The mixer volume `SoundControl::new` sets as written: the counter times VOL_STEPS. */
  function InitialChannelVolumeAsWritten(): int
  {
    (VolSteps / 2) * VolSteps
  }

  lemma InitialChannelVolumeDiffers()
    ensures InitialChannelVolumeAsWritten() == 50
    ensures ChannelVolume(VolSteps / 2) == 60
    ensures InitialChannelVolumeAsWritten() != ChannelVolume(VolSteps / 2)
  {
  }

  class SoundControl {
    var volume: int
    /** The volume last handed to the mixer for all channels. */
    var channelVolume: int

    ghost predicate Valid()
      reads this
    {
      0 <= volume <= VolSteps && channelVolume == ChannelVolume(volume)
    }

    constructor ()
      ensures Valid()
      ensures volume == VolSteps / 2 == 5
    {
      volume := VolSteps / 2;
      channelVolume := ChannelVolume(VolSteps / 2);
    }

    method IncreaseVolume(animations: Animations)
      requires Valid() && animations.Valid()
      modifies this, animations
      ensures Valid() && animations.Valid()
      ensures volume == if old(volume) < VolSteps then old(volume) + 1 else old(volume)
      ensures old(volume) == VolSteps ==> channelVolume == old(channelVolume)
      ensures animations.animation ==
        WithoutVolumeChange(old(animations.animation)) + [NewAnimation(VolumeChange(volume))]
    {
      if volume < VolSteps {
        volume := volume + 1;
        channelVolume := ChannelVolume(volume);
      }
      var a := NewAnimation(VolumeChange(volume));
      animations.Register(a);
    }

    method DecreaseVolume(animations: Animations)
      requires Valid() && animations.Valid()
      modifies this, animations
      ensures Valid() && animations.Valid()
      ensures volume == if old(volume) > 0 then old(volume) - 1 else old(volume)
      ensures old(volume) == 0 ==> channelVolume == old(channelVolume)
      ensures animations.animation ==
        WithoutVolumeChange(old(animations.animation)) + [NewAnimation(VolumeChange(volume))]
    {
      if volume > 0 {
        volume := volume - 1;
        channelVolume := ChannelVolume(volume);
      }
      var a := NewAnimation(VolumeChange(volume));
      animations.Register(a);
    }
  }
}
