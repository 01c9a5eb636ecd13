/** The capture screen of the app (PhotoAppFrontend/app/camera.js): the
    shutter, the picture/video switch, the flip and flash buttons, pinch to
    zoom and the background upload of each capture. What the camera returns
    (`takePictureAsync`, `recordAsync`) arrives as method parameters, and the
    uploads the screen starts are recorded in order. */
module CameraScreen {
  import opened Wrappers
  import opened Strings
  import opened ClientForms

  datatype CameraMode = Picture | Video
  datatype Facing = Back | Front
  datatype FlashSetting = FlashOff | FlashOn | FlashAuto

  /** The `type` argument of `uploadMediaBackground`: 'photo' or 'video'. */
  datatype Capture = PhotoShot | VideoClip

  /** The clamp of `onUpdate`: below 0 becomes 0, above 1 becomes 1. */
  function Clamp01(x: real): (r: real)
    ensures 0.0 <= r <= 1.0
    ensures 0.0 <= x <= 1.0 ==> r == x
    ensures x < 0.0 ==> r == 0.0
    ensures x > 1.0 ==> r == 1.0
  {
    if x < 0.0 then 0.0 else if x > 1.0 then 1.0 else x
  }

  /** The zoom a pinch of `scale` gives from the zoom at its start: half the
      change in scale is added, then clamped. */
  function PinchZoom(start: real, scale: real): (r: real)
    ensures 0.0 <= r <= 1.0
    ensures 0.0 <= start <= 1.0 && scale == 1.0 ==> r == start
  {
    Clamp01(start + (scale - 1.0) * 0.5)
  }

  /** Spreading the fingers further never zooms out. */
  lemma PinchZoomMonotone(start: real, s1: real, s2: real)
    requires s1 <= s2
    ensures PinchZoom(start, s1) <= PinchZoom(start, s2)
  {
  }

  /** `formatTime`: minutes, ":", and the seconds with a leading zero below
      ten. */
  function FormatTime(seconds: nat): string {
    var s := seconds % 60;
    NatToString(seconds / 60) + ":" + (if s < 10 then "0" else "") + NatToString(s)
  }

  /** The text of a number below 60, padded to two digits as `formatTime`
      does, reads back as the number. */
  lemma TwoDigitsParse(s: nat)
    requires s < 60
    ensures |(if s < 10 then "0" else "") + NatToString(s)| == 2
    ensures ParseDecimal((if s < 10 then "0" else "") + NatToString(s)) == Some(s)
  {
    var t := (if s < 10 then "0" else "") + NatToString(s);
    if s < 10 {
      assert t == "0" + [DigitChar(s)];
      assert t[..1] == "0";
      assert DecimalValue(t[..1]) == DecimalValue("") * 10 + DigitValue('0');
      assert DecimalValue(t) == DecimalValue(t[..1]) * 10 + DigitValue(t[1]);
    } else {
      assert t == NatToString(s);
      assert NatToString(s) == NatToString(s / 10) + [DigitChar(s % 10)];
      ParseNatToString(s);
    }
  }

  /** `formatTime(seconds)` is "m:ss": everything before the last three
      characters reads as the whole minutes, then ":", then two digits that
      read as the remaining seconds. */
  lemma FormatTimeFields(seconds: nat)
    ensures var r := FormatTime(seconds);
            && |r| >= 4 && r[|r| - 3] == ':'
            && ParseDecimal(r[..|r| - 3]) == Some(seconds / 60)
            && ParseDecimal(r[|r| - 2..]) == Some(seconds % 60)
  {
    var r := FormatTime(seconds);
    var m := NatToString(seconds / 60);
    var ss := (if seconds % 60 < 10 then "0" else "") + NatToString(seconds % 60);
    TwoDigitsParse(seconds % 60);
    assert r == m + ":" + ss;
    assert r[..|r| - 3] == m;
    assert r[|r| - 2..] == ss;
    ParseNatToString(seconds / 60);
  }

  /** The content type of the `photo` part. */
  function MimeFor(kind: Capture): (m: string)
    ensures kind == VideoClip ==> m == "video/mp4"
    ensures kind == PhotoShot ==> m == "image/jpeg"
  {
    if kind == VideoClip then "video/mp4" else "image/jpeg"
  }

  /** The form `uploadMediaBackground` builds for a capture. */
  function FormFor(userId: string, groupId: string, uri: string, kind: Capture): (f: UploadForm)
    ensures f.userId == userId && f.groupId == groupId && f.uri == uri
    ensures f.name == FileNameOf(uri) && f.mimeType == MimeFor(kind)
    ensures '/' !in f.name && EndsWith(uri, f.name)
    ensures StartsWith(f.mimeType, "video/") <==> kind == VideoClip
    ensures StartsWith(f.mimeType, "image/") <==> kind == PhotoShot
  {
    assert "video/mp4"[..6] == "video/" && "image/jpeg"[..6] == "image/";
    assert "video/mp4"[0] != "image/"[0] && "image/jpeg"[0] != "video/"[0];
    UploadForm(userId, groupId, uri, FileNameOf(uri), MimeFor(kind))
  }

  class Camera {
    var mode: CameraMode
    var facing: Facing
    var flash: FlashSetting
    var showFlashMenu: bool
    var isRecording: bool
    var duration: nat
    /** Whether the one-second interval kept in `timerRef` is running. */
    var timerActive: bool
    var zoom: real
    /** `startZoom.current`. */
    var startZoom: real
    /** Whether `cameraRef.current` is set (the camera view is mounted). */
    var cameraReady: bool
    /** The uploads started so far, oldest first. */
    var uploads: seq<UploadForm>
    const userId: string
    const groupId: string

    /** Zoom stays in [0,1]; only a mounted camera in video mode records;
        the timer runs exactly while recording. */
    ghost predicate Valid()
      reads this
    {
      && 0.0 <= zoom <= 1.0 && 0.0 <= startZoom <= 1.0
      && (isRecording ==> mode == Video && cameraReady)
      && (timerActive <==> isRecording)
    }

    constructor (userId: string, groupId: string)
      ensures Valid()
      ensures this.userId == userId && this.groupId == groupId
      ensures mode == Picture && facing == Back && flash == FlashOff && !showFlashMenu
      ensures !isRecording && duration == 0 && !timerActive && zoom == 0.0 && startZoom == 0.0
      ensures !cameraReady && uploads == []
    {
      this.userId := userId;
      this.groupId := groupId;
      mode := Picture;
      facing := Back;
      flash := FlashOff;
      showFlashMenu := false;
      isRecording := false;
      duration := 0;
      timerActive := false;
      zoom := 0.0;
      startZoom := 0.0;
      cameraReady := false;
      uploads := [];
    }

    /** The camera view mounts once permission is granted. */
    method Mount()
      requires Valid()
      modifies this`cameraReady
      ensures Valid() && cameraReady
    {
      cameraReady := true;
    }

    /** `onStart`: the gesture remembers the zoom it started from. */
    method PinchStart()
      requires Valid()
      modifies this`startZoom
      ensures Valid() && startZoom == zoom
    {
      startZoom := zoom;
    }

    /** `onUpdate`: zoom follows the pinch from the remembered start. */
    method PinchUpdate(scale: real)
      requires Valid()
      modifies this`zoom
      ensures Valid() && zoom == PinchZoom(startZoom, scale)
      ensures scale == 1.0 ==> zoom == startZoom
    {
      zoom := PinchZoom(startZoom, scale);
    }

    /** `uploadMediaBackground`: nothing for an empty uri, otherwise one
        upload is started (its response is not awaited). */
    method UploadMedia(uri: string, kind: Capture)
      requires Valid()
      modifies this`uploads
      ensures Valid()
      ensures uploads == old(uploads) + (if uri == "" then [] else [FormFor(userId, groupId, uri, kind)])
    {
      if uri != "" {
        var form := FormFor(userId, groupId, uri, kind);
        uploads := uploads + [form];
      }
    }

    /** `startVideo`: with a mounted camera, recording starts from zero
        seconds and the timer runs. Reached from the shutter in video mode. */
    method StartVideo()
      requires Valid() && mode == Video
      modifies this`isRecording, this`duration, this`timerActive
      ensures Valid()
      ensures cameraReady ==> isRecording && duration == 0 && timerActive
      ensures !cameraReady ==> unchanged(this)
    {
      if cameraReady {
        isRecording := true;
        duration := 0;
        timerActive := true;
      }
    }

    /** `stopVideo`: a no-op unless a mounted camera is recording; then the
        recording and the timer stop. */
    method StopVideo()
      requires Valid()
      modifies this`isRecording, this`timerActive
      ensures Valid() && !isRecording && !timerActive
      ensures !old(isRecording) ==> unchanged(this)
    {
      if cameraReady && isRecording {
        isRecording := false;
        timerActive := false;
      }
    }

    /** `handleCapture`. In picture mode `shot` is what `takePictureAsync`
        resolved with (None when it failed); the picture is uploaded as a
        photo and recording is untouched. In video mode the shutter starts or
        stops recording. */
    method Shutter(shot: Option<string>)
      requires Valid()
      modifies this
      ensures Valid()
      ensures !cameraReady ==> unchanged(this)
      ensures cameraReady && mode == Picture ==>
                && isRecording == old(isRecording) && duration == old(duration) && mode == Picture
                && uploads == old(uploads) + (if shot.None? || shot.value == "" then []
                                              else [FormFor(userId, groupId, shot.value, PhotoShot)])
      ensures cameraReady && mode == Video && !old(isRecording) ==>
                isRecording && duration == 0 && timerActive && uploads == old(uploads)
      ensures cameraReady && mode == Video && old(isRecording) ==>
                !isRecording && !timerActive && duration == old(duration) && uploads == old(uploads)
      ensures mode == old(mode) && zoom == old(zoom) && facing == old(facing) && flash == old(flash)
      ensures unchanged(this`showFlashMenu, this`startZoom, this`cameraReady)
      ensures mode == Picture ==> timerActive == old(timerActive)
    {
      if !cameraReady {
        return;
      }
      if mode == Picture {
        if shot.Some? {
          UploadMedia(shot.value, PhotoShot);
        }
      } else if isRecording {
        StopVideo();
      } else {
        StartVideo();
      }
    }

    /** The pending `recordAsync` settles: a clip is uploaded as a video. A
        failure runs the `stopVideo` of the render that started recording,
        whose `isRecording` is still false, so it does nothing: the
        recording flag and the timer stay on. */
    method RecordingSettled(clip: Option<string>)
      requires Valid()
      modifies this`uploads
      ensures Valid()
      ensures clip.Some? ==> uploads == old(uploads) + (if clip.value == "" then []
                                                        else [FormFor(userId, groupId, clip.value, VideoClip)])
      ensures clip.None? ==> unchanged(this)
    {
      if clip.Some? {
        UploadMedia(clip.value, VideoClip);
      }
    }

    /** One tick of the one-second interval. */
    method Tick()
      requires Valid()
      modifies this`duration
      ensures Valid()
      ensures duration == if timerActive then old(duration) + 1 else old(duration)
    {
      if timerActive {
        duration := duration + 1;
      }
    }

    /** The flip button: front and back swap, zoom returns to 0. */
    method Flip()
      requires Valid()
      modifies this`facing, this`zoom
      ensures Valid() && zoom == 0.0
      ensures facing == (if old(facing) == Back then Front else Back)
    {
      facing := if facing == Back then Front else Back;
      zoom := 0.0;
    }

    /** The main flash icon opens or closes the flash menu. */
    method ToggleFlashMenu()
      requires Valid()
      modifies this`showFlashMenu
      ensures Valid() && showFlashMenu == !old(showFlashMenu)
    {
      showFlashMenu := !showFlashMenu;
    }

    /** A flash option sets the flash and closes the menu. */
    method ChooseFlash(setting: FlashSetting)
      requires Valid()
      modifies this`flash, this`showFlashMenu
      ensures Valid() && flash == setting && !showFlashMenu
    {
      flash := setting;
      showFlashMenu := false;
    }

    /** The photo switch: a running recording is stopped first, then picture
        mode with zoom 0 (also when already in picture mode). */
    method SelectPicture()
      requires Valid()
      modifies this`isRecording, this`timerActive, this`mode, this`zoom
      ensures Valid()
      ensures mode == Picture && zoom == 0.0 && !isRecording && !timerActive
    {
      if isRecording {
        StopVideo();
      }
      mode := Picture;
      zoom := 0.0;
    }

    /** The video switch: nothing when already in video mode, otherwise
        video mode with zoom 0. */
    method SelectVideo()
      requires Valid()
      modifies this`mode, this`zoom
      ensures Valid() && mode == Video
      ensures old(mode) == Video ==> unchanged(this)
      ensures old(mode) != Video ==> zoom == 0.0
    {
      if mode != Video {
        mode := Video;
        zoom := 0.0;
      }
    }
  }
}
