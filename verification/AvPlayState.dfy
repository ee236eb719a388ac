// Play states of the MPEG decoder: the core (dvb/drivers/media/dvb/avia/avia_av_core.c) under the
// audio and video devices (dvb/drivers/media/dvb/avia/avia_av_napi.c).  The device layer ignores
// the return codes of the core, so the two layers may disagree; the invariant says how far.

module AvPlayState {

  datatype Core = CorePaused | CorePlaying | CoreStopped
  datatype Api = ApiStopped | ApiPlaying | ApiPaused
  datatype Source = Demux | Memory
  datatype StreamType = Type0 | Spts | Pes

  datatype State = State(
    coreAudio: Core, coreVideo: Core,
    apiAudio: Api, apiVideo: Api,
    haveAudio: bool, haveVideo: bool,
    audioSource: Source, videoSource: Source,
    streamType: StreamType          // of both decoders; the drivers always set them together
  )

  // After avia_av_init, with the cleared states of the devices.
  const INITIAL_STATE :=
    State(CoreStopped, CoreStopped, ApiStopped, ApiStopped, false, false, Demux, Demux, Spts)

  datatype Rc = Ok | EInval | EBusy | ClipModeError

  // ---------- The core ----------

  // avia_av_play_state_set_audio; the audio decoder may be started again while it plays.
  function SetAudio(s: State, new_: Core): (State, Rc) {
    if (new_ == CorePaused && s.coreAudio != CorePlaying) || (new_ == CoreStopped && s.coreAudio == CoreStopped)
    then (s, EInval)
    else (s.(coreAudio := new_), Ok)
  }

  // avia_av_play_state_set_video
  function SetVideo(s: State, new_: Core): (State, Rc) {
    if (new_ == CorePaused && s.coreVideo != CorePlaying) || (new_ == CoreStopped && s.coreVideo == CoreStopped)
       || (new_ == CorePlaying && s.coreVideo == CorePlaying)
    then (s, EInval)
    else (s.(coreVideo := new_), Ok)
  }

  // avia_av_stream_type_set
  function SetStreamType(s: State, t: StreamType): (State, Rc) {
    if s.coreVideo != CoreStopped || s.coreAudio != CoreStopped then (s, EBusy)
    else (s.(streamType := t), Ok)
  }

  // ---------- The devices ----------

  datatype Pes = AudioPes | VideoPes | OtherPes
  datatype Feed = Feed(typeOk: bool, toDecoder: bool, pes: Pes, payloadOnly: bool)

  datatype Op =
    | VideoStop | VideoPlay | VideoFreeze | VideoContinue
    | VideoSelectSource(video: Source, videoClipOk: bool)
    | VideoSetStreamType
    | AudioStop | AudioPlay | AudioPause | AudioContinue
    | AudioSelectSource(audio: Source, audioClipOk: bool)
    | DecoderStart(start: Feed) | DecoderStop(stop: Feed)
    | CoreReset

  function Start(s: State, f: Feed): (State, Rc) {
    if !f.typeOk || !f.toDecoder || f.pes == OtherPes then (s, EInval)
    else
      var t := SetStreamType(s, if f.payloadOnly then StreamType.Pes else Type0).0;
      if f.pes == AudioPes then
        var u := if t.apiAudio == ApiPlaying then SetAudio(t, CorePlaying).0 else t;
        (u.(haveAudio := true), Ok)
      else
        var u := if t.apiVideo == ApiPlaying then SetVideo(t, CorePlaying).0 else t;
        (u.(haveVideo := true), Ok)
  }

  function Stop(s: State, f: Feed): (State, Rc) {
    if !f.typeOk || !f.toDecoder || f.pes == OtherPes then (s, EInval)
    else if f.pes == AudioPes then (SetAudio(s, CoreStopped).0.(haveAudio := false), Ok)
    else (SetVideo(s, CoreStopped).0.(haveVideo := false), Ok)
  }

  function Step(s: State, op: Op): (State, Rc) {
    match op
    case VideoStop => (SetVideo(s, CoreStopped).0.(apiVideo := ApiStopped), Ok)
    case VideoPlay =>
      var t := if s.haveVideo || s.videoSource == Memory then SetVideo(s, CorePlaying).0 else s;
      (t.(apiVideo := ApiPlaying), Ok)
    case VideoFreeze => (SetVideo(s, CorePaused).0.(apiVideo := ApiPaused), Ok)
    case VideoContinue => (SetVideo(s, CorePlaying).0.(apiVideo := ApiPlaying), Ok)
    case VideoSelectSource(src, clipOk) =>
      if s.apiVideo != ApiStopped then (s, EInval)
      else if !clipOk then (s, ClipModeError)
      else (s.(videoSource := src), Ok)
    case VideoSetStreamType => SetStreamType(s, StreamType.Pes)
    case AudioStop => (SetAudio(s, CoreStopped).0.(apiAudio := ApiStopped), Ok)
    case AudioPlay =>
      var t := if s.haveAudio || s.audioSource == Memory then SetAudio(s, CorePlaying).0 else s;
      (t.(apiAudio := ApiPlaying), Ok)
    case AudioPause =>
      if s.apiAudio == ApiPlaying then (SetAudio(s, CorePaused).0.(apiAudio := ApiPaused), Ok) else (s, Ok)
    case AudioContinue =>
      if s.apiAudio == ApiPaused then (SetAudio(s, CorePlaying).0.(apiAudio := ApiPlaying), Ok) else (s, Ok)
    case AudioSelectSource(src, clipOk) =>
      if s.apiAudio != ApiStopped then (s, EInval)
      else if !clipOk then (s, ClipModeError)
      else (s.(audioSource := src), Ok)
    case DecoderStart(f) => Start(s, f)
    case DecoderStop(f) => Stop(s, f)
    case CoreReset => (s.(coreAudio := CoreStopped, coreVideo := CoreStopped, streamType := Spts), Ok)
  }

  function Run(s: State, ops: seq<Op>): State
    decreases |ops|
  {
    if |ops| == 0 then s else Step(Run(s, ops[..|ops| - 1]), ops[|ops| - 1]).0
  }

  // ---------- Properties of every run ----------

  // A playing core is playing for the application, and what is stopped for the application is
  // stopped in the core.
  predicate Agrees(core: Core, api: Api) {
    (core == CorePlaying ==> api == ApiPlaying) && (api == ApiStopped ==> core == CoreStopped)
  }

  predicate Consistent(s: State) { Agrees(s.coreAudio, s.apiAudio) && Agrees(s.coreVideo, s.apiVideo) }

  lemma StepConsistent(s: State, op: Op)
    requires Consistent(s)
    ensures Consistent(Step(s, op).0)
  {
    if op.DecoderStart? || op.DecoderStop? || op.CoreReset? {
      FeedConsistent(s, op);
    } else {
      IoctlConsistent(s, op);
    }
  }

  lemma FeedConsistent(s: State, op: Op)
    requires Consistent(s) && (op.DecoderStart? || op.DecoderStop? || op.CoreReset?)
    ensures Consistent(Step(s, op).0)
  {
    if op.DecoderStart? {
      StartConsistent(s, op.start);
    } else if op.DecoderStop? {
      StopConsistent(s, op.stop);
    }
  }

  lemma StartConsistent(s: State, f: Feed)
    requires Consistent(s)
    ensures Consistent(Start(s, f).0)
  {
  }

  lemma StopConsistent(s: State, f: Feed)
    requires Consistent(s)
    ensures Consistent(Stop(s, f).0)
  {
  }

  lemma IoctlConsistent(s: State, op: Op)
    requires Consistent(s) && !op.DecoderStart? && !op.DecoderStop? && !op.CoreReset?
    ensures Consistent(Step(s, op).0)
  {
  }

  // What each operation does, as a whole state.
  lemma AudioOps(s: State)
    ensures Step(s, AudioStop) == (s.(coreAudio := CoreStopped, apiAudio := ApiStopped), Ok)
    ensures Step(s, AudioPlay)
         == (if s.haveAudio || s.audioSource == Memory then s.(coreAudio := CorePlaying, apiAudio := ApiPlaying)
             else s.(apiAudio := ApiPlaying), Ok)
    ensures Step(s, AudioPause)
         == (if s.apiAudio != ApiPlaying then s
             else if s.coreAudio == CorePlaying then s.(coreAudio := CorePaused, apiAudio := ApiPaused)
             else s.(apiAudio := ApiPaused), Ok)
    ensures Step(s, AudioContinue)
         == (if s.apiAudio == ApiPaused then s.(coreAudio := CorePlaying, apiAudio := ApiPlaying) else s, Ok)
  {
  }

  lemma VideoOps(s: State)
    ensures Step(s, VideoStop) == (s.(coreVideo := CoreStopped, apiVideo := ApiStopped), Ok)
    ensures Step(s, VideoPlay)
         == (if s.haveVideo || s.videoSource == Memory then s.(coreVideo := CorePlaying, apiVideo := ApiPlaying)
             else s.(apiVideo := ApiPlaying), Ok)
    ensures Step(s, VideoFreeze)
         == (if s.coreVideo == CorePlaying then s.(coreVideo := CorePaused, apiVideo := ApiPaused)
             else s.(apiVideo := ApiPaused), Ok)
    ensures Step(s, VideoContinue) == (s.(coreVideo := CorePlaying, apiVideo := ApiPlaying), Ok)
  {
  }

  // A feed starts its decoder exactly when the application has it playing, and stops it always; the stream
  // type follows the feed only while both decoders are stopped.
  lemma FeedOps(s: State, f: Feed)
    requires f.typeOk && f.toDecoder && f.pes != OtherPes
    ensures var t := if s.coreAudio == CoreStopped && s.coreVideo == CoreStopped
                     then s.(streamType := if f.payloadOnly then StreamType.Pes else Type0) else s;
            Step(s, DecoderStart(f))
            == (if f.pes == AudioPes
                then t.(haveAudio := true, coreAudio := if s.apiAudio == ApiPlaying then CorePlaying else s.coreAudio)
                else t.(haveVideo := true, coreVideo := if s.apiVideo == ApiPlaying then CorePlaying else s.coreVideo),
                Ok)
    ensures Step(s, DecoderStop(f))
         == (if f.pes == AudioPes then s.(haveAudio := false, coreAudio := CoreStopped)
             else s.(haveVideo := false, coreVideo := CoreStopped), Ok)
  {
  }

  // Over every run of ioctls, feeds and chip resets.
  lemma {:induction false} RunConsistent(ops: seq<Op>)
    ensures Consistent(Run(INITIAL_STATE, ops))
    decreases |ops|
  {
    if |ops| > 0 {
      RunConsistent(ops[..|ops| - 1]);
      StepConsistent(Run(INITIAL_STATE, ops[..|ops| - 1]), ops[|ops| - 1]);
    }
  }

  // On every run, a source switch that is accepted finds its decoder stopped, and the stream type
  // only changes while both decoders are stopped or are reset.
  lemma SwitchesAreSafe(ops: seq<Op>, op: Op)
    ensures var s := Run(INITIAL_STATE, ops);
            var r := Step(s, op);
            && (op.VideoSelectSource? && r.1 == Ok ==> s.coreVideo == CoreStopped)
            && (op.AudioSelectSource? && r.1 == Ok ==> s.coreAudio == CoreStopped)
            && (r.0.streamType != s.streamType ==>
                r.0.streamType == Spts || (s.coreAudio == CoreStopped && s.coreVideo == CoreStopped))
  {
    RunConsistent(ops);
  }

  lemma RunThen(ops: seq<Op>, op: Op)
    ensures Run(INITIAL_STATE, ops + [op]) == Step(Run(INITIAL_STATE, ops), op).0
  {
    assert (ops + [op])[..|ops + [op]| - 1] == ops;
  }

  ghost predicate VideoReaches(ops: seq<Op>, core: Core, api: Api) {
    Run(INITIAL_STATE, ops).coreVideo == core && Run(INITIAL_STATE, ops).apiVideo == api
  }

  // The invariant is exact for the video decoder: the layers can disagree in every way it allows.
  // A freeze may find the core stopped, and a play without a feed leaves it stopped or paused.
  lemma VideoPairsReached(core: Core, api: Api)
    ensures Agrees(core, api) <==> exists ops :: VideoReaches(ops, core, api)
  {
    if ops :| VideoReaches(ops, core, api) { RunConsistent(ops); }
    var start: seq<Op> := [];
    var playing := start + [VideoContinue];
    var frozen := playing + [VideoFreeze];
    RunThen(start, VideoPlay);
    RunThen(start, VideoFreeze);
    RunThen(start, VideoContinue);
    RunThen(playing, VideoFreeze);
    RunThen(frozen, VideoPlay);
    assert VideoReaches(start, CoreStopped, ApiStopped);
    assert VideoReaches(start + [VideoPlay], CoreStopped, ApiPlaying);
    assert VideoReaches(start + [VideoFreeze], CoreStopped, ApiPaused);
    assert VideoReaches(playing, CorePlaying, ApiPlaying);
    assert VideoReaches(frozen, CorePaused, ApiPaused);
    assert VideoReaches(frozen + [VideoPlay], CorePaused, ApiPlaying);
  }

  ghost predicate AudioReaches(ops: seq<Op>, core: Core, api: Api) {
    Run(INITIAL_STATE, ops).coreAudio == core && Run(INITIAL_STATE, ops).apiAudio == api
  }

  // It is exact for the audio decoder too, although pause and continue are guarded there: a
  // continue without a feed still starts the core.
  lemma AudioPairsReached(core: Core, api: Api)
    ensures Agrees(core, api) <==> exists ops :: AudioReaches(ops, core, api)
  {
    if ops :| AudioReaches(ops, core, api) { RunConsistent(ops); }
    var start: seq<Op> := [];
    var waiting := start + [AudioPlay];
    var playing := waiting + [AudioPause] + [AudioContinue];
    AudioWaits(start, waiting);
    AudioResumes(playing);
  }

  lemma AudioWaits(start: seq<Op>, waiting: seq<Op>)
    requires start == [] && waiting == start + [AudioPlay]
    ensures AudioReaches(start, CoreStopped, ApiStopped) && AudioReaches(waiting, CoreStopped, ApiPlaying)
    ensures AudioReaches(waiting + [AudioPause], CoreStopped, ApiPaused)
    ensures AudioReaches(waiting + [AudioPause] + [AudioContinue], CorePlaying, ApiPlaying)
    ensures !Run(INITIAL_STATE, waiting + [AudioPause] + [AudioContinue]).haveAudio
    ensures Run(INITIAL_STATE, waiting + [AudioPause] + [AudioContinue]).audioSource == Demux
  {
    RunThen(start, AudioPlay);
    RunThen(waiting, AudioPause);
    RunThen(waiting + [AudioPause], AudioContinue);
  }

  lemma AudioResumes(playing: seq<Op>)
    requires AudioReaches(playing, CorePlaying, ApiPlaying)
    requires !Run(INITIAL_STATE, playing).haveAudio && Run(INITIAL_STATE, playing).audioSource == Demux
    ensures AudioReaches(playing + [AudioPause], CorePaused, ApiPaused)
    ensures AudioReaches(playing + [AudioPause] + [AudioPlay], CorePaused, ApiPlaying)
  {
    RunThen(playing, AudioPause);
    RunThen(playing + [AudioPause], AudioPlay);
  }

  // ---------- The driver ----------

  class Decoder {
    var s: State

    constructor ()
      ensures s == INITIAL_STATE
    {
      s := INITIAL_STATE;
    }

    // avia_av_play_state_set_audio
    method PlayStateSetAudio(new_: Core) returns (rc: Rc)
      modifies this
      ensures (s, rc) == SetAudio(old(s), new_)
    {
      match new_ {
        case CorePaused => if s.coreAudio != CorePlaying { return EInval; }
        case CorePlaying =>
        case CoreStopped => if s.coreAudio != CorePaused && s.coreAudio != CorePlaying { return EInval; }
      }
      s := s.(coreAudio := new_);
      rc := Ok;
    }

    // avia_av_play_state_set_video
    method PlayStateSetVideo(new_: Core) returns (rc: Rc)
      modifies this
      ensures (s, rc) == SetVideo(old(s), new_)
    {
      match new_ {
        case CorePaused => if s.coreVideo != CorePlaying { return EInval; }
        case CorePlaying => if s.coreVideo == CorePlaying { return EInval; }
        case CoreStopped => if s.coreVideo != CorePaused && s.coreVideo != CorePlaying { return EInval; }
      }
      s := s.(coreVideo := new_);
      rc := Ok;
    }

    // avia_av_stream_type_set
    method StreamTypeSet(t: StreamType) returns (rc: Rc)
      modifies this
      ensures (s, rc) == SetStreamType(old(s), t)
    {
      if s.coreVideo != CoreStopped || s.coreAudio != CoreStopped { return EBusy; }
      if t == s.streamType { return Ok; }
      s := s.(streamType := t);
      rc := Ok;
    }

    // avia_av_napi_decoder_start
    method DecoderStart(f: Feed) returns (rc: Rc)
      modifies this
      ensures (s, rc) == Step(old(s), Op.DecoderStart(f))
    {
      if !f.typeOk { return EInval; }
      if !f.toDecoder { return EInval; }
      if f.pes == OtherPes { return EInval; }
      var _ := StreamTypeSet(if f.payloadOnly then StreamType.Pes else Type0);
      if f.pes == AudioPes {
        if s.apiAudio == ApiPlaying { var _ := PlayStateSetAudio(CorePlaying); }
        s := s.(haveAudio := true);
      } else {
        if s.apiVideo == ApiPlaying { var _ := PlayStateSetVideo(CorePlaying); }
        s := s.(haveVideo := true);
      }
      rc := Ok;
    }

    // avia_av_napi_decoder_stop
    method DecoderStop(f: Feed) returns (rc: Rc)
      modifies this
      ensures (s, rc) == Step(old(s), Op.DecoderStop(f))
    {
      if !f.typeOk { return EInval; }
      if !f.toDecoder { return EInval; }
      rc := Ok;
      match f.pes
      case AudioPes =>
        var _ := PlayStateSetAudio(CoreStopped);
        s := s.(haveAudio := false);
      case VideoPes =>
        var _ := PlayStateSetVideo(CoreStopped);
        s := s.(haveVideo := false);
      case OtherPes => return EInval;
    }

    // avia_av_napi_video_ioctl and avia_av_napi_audio_ioctl
    method Ioctl(op: Op) returns (rc: Rc)
      requires !op.DecoderStart? && !op.DecoderStop? && !op.CoreReset?
      modifies this
      ensures (s, rc) == Step(old(s), op)
    {
      var ignored;
      rc := Ok;
      match op
      case VideoStop =>
        ignored := PlayStateSetVideo(CoreStopped);
        s := s.(apiVideo := ApiStopped);
      case VideoPlay =>
        if s.haveVideo || s.videoSource == Memory { ignored := PlayStateSetVideo(CorePlaying); }
        s := s.(apiVideo := ApiPlaying);
      case VideoFreeze =>
        ignored := PlayStateSetVideo(CorePaused);
        s := s.(apiVideo := ApiPaused);
      case VideoContinue =>
        ignored := PlayStateSetVideo(CorePlaying);
        s := s.(apiVideo := ApiPlaying);
      case VideoSelectSource(src, clipOk) =>
        if s.apiVideo != ApiStopped { return EInval; }
        if !clipOk { return ClipModeError; }
        s := s.(videoSource := src);
      case VideoSetStreamType =>
        rc := StreamTypeSet(StreamType.Pes);
      case AudioStop =>
        ignored := PlayStateSetAudio(CoreStopped);
        s := s.(apiAudio := ApiStopped);
      case AudioPlay =>
        if s.haveAudio || s.audioSource == Memory { ignored := PlayStateSetAudio(CorePlaying); }
        s := s.(apiAudio := ApiPlaying);
      case AudioPause =>
        if s.apiAudio == ApiPlaying {
          ignored := PlayStateSetAudio(CorePaused);
          s := s.(apiAudio := ApiPaused);
        }
      case AudioContinue =>
        if s.apiAudio == ApiPaused {
          ignored := PlayStateSetAudio(CorePlaying);
          s := s.(apiAudio := ApiPlaying);
        }
      case AudioSelectSource(src, clipOk) =>
        if s.apiAudio != ApiStopped { return EInval; }
        if !clipOk { return ClipModeError; }
        s := s.(audioSource := src);
    }
  }
}
