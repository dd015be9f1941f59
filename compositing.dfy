/** The orchestrator of qrcode.go: a `QrCode` holds the settings of the
    external QR encoder, a corner radius and up to three overlay stages, and
    `Image` renders the base QR bitmap, applies the stages that are set in the
    fixed order foreground, avatar, background, stops at the first stage that
    fails, and finally wraps the result in a `RoundMask`. */
module Compositing {
  import opened Wrappers
  import opened GoImage
  import opened Masks

  /** The fields of the external encoder object (`*qrcode.QRCode`) that the
      setters change and the stages may read. */
  datatype EncoderSettings = EncoderSettings(
    foregroundColor: Color, backgroundColor: Color, disableBorder: bool)

  /** `IImage.Create(qr, img)`: an overlay stage (avatar, foreground image or
      background image) that turns the image so far into a new one or fails. */
  type Stage = (EncoderSettings, Image) -> Result<Image>

  /** One optional stage of `Image`: an earlier error passes through, an
      absent stage changes nothing, a present one is applied to the image so
      far. No stage turns an error back into an image. */
  function Then(prev: Result<Image>, stage: Option<Stage>, qr: EncoderSettings): (r: Result<Image>)
    ensures r.Ok? ==> prev.Ok?
    ensures prev.Err? ==> r == prev
    ensures stage.None? ==> r == prev
  {
    match prev
    case Err(e) => Err(e)
    case Ok(img) =>
      match stage
      case None => Ok(img)
      case Some(create) => create(qr, img)
  }

  /** What `QrCode.Image` yields for the base bitmap `base`. Only a stage can
      fail: with none set the render always succeeds. */
  function Render(qr: EncoderSettings, round: int, foreground: Option<Stage>, avatar: Option<Stage>,
                  background: Option<Stage>, base: Image): (r: Result<Image>)
    ensures r.Err? ==> foreground.Some? || avatar.Some? || background.Some?
  {
    match Then(Then(Then(Ok(base), foreground, qr), avatar, qr), background, qr)
    case Err(e) => Err(e)
    case Ok(img) => Ok(NewRoundMask(img, round))
  }

  /** With no stage set, the result is the base bitmap with rounded corners. */
  lemma RenderNoStages(qr: EncoderSettings, round: int, base: Image)
    ensures Render(qr, round, None, None, None, base) == Ok(RoundMask(base, round))
  {
  }

  /** With all three stages set and succeeding, the foreground stage sees the
      base bitmap, the avatar stage the foreground's output, the background
      stage the avatar's output, and the corners of the last are rounded. */
  lemma RenderOrder(qr: EncoderSettings, round: int, foreground: Stage, avatar: Stage,
                    background: Stage, base: Image, i1: Image, i2: Image, i3: Image)
    requires foreground(qr, base) == Ok(i1)
    requires avatar(qr, i1) == Ok(i2)
    requires background(qr, i2) == Ok(i3)
    ensures Render(qr, round, Some(foreground), Some(avatar), Some(background), base)
            == Ok(RoundMask(i3, round))
  {
  }

  /** A failing foreground stage ends the render with its error; the later
      stages are not consulted. */
  lemma ForegroundErrorStops(qr: EncoderSettings, round: int, foreground: Stage,
                             avatar: Option<Stage>, background: Option<Stage>, base: Image)
    requires foreground(qr, base).Err?
    ensures Render(qr, round, Some(foreground), avatar, background, base)
            == Err(foreground(qr, base).error)
  {
  }

  /** A failing avatar stage, reached with image `img`, ends the render with
      its error; the background stage is not consulted. */
  lemma AvatarErrorStops(qr: EncoderSettings, round: int, foreground: Option<Stage>,
                         avatar: Stage, background: Option<Stage>, base: Image, img: Image)
    requires Then(Ok(base), foreground, qr) == Ok(img)
    requires avatar(qr, img).Err?
    ensures Render(qr, round, foreground, Some(avatar), background, base)
            == Err(avatar(qr, img).error)
  {
  }

  /** A failing background stage, reached with image `img`, ends the render
      with its error and no image. */
  lemma BackgroundErrorStops(qr: EncoderSettings, round: int, foreground: Option<Stage>,
                             avatar: Option<Stage>, background: Stage, base: Image, img: Image)
    requires Then(Then(Ok(base), foreground, qr), avatar, qr) == Ok(img)
    requires background(qr, img).Err?
    ensures Render(qr, round, foreground, avatar, Some(background), base)
            == Err(background(qr, img).error)
  {
  }

  /** A successful render is always a corner mask of the configured radius,
      and it keeps the bounds of the image the last stage produced. */
  lemma RenderIsRounded(qr: EncoderSettings, round: int, foreground: Option<Stage>,
                        avatar: Option<Stage>, background: Option<Stage>, base: Image)
    ensures var r := Render(qr, round, foreground, avatar, background, base);
            var last := Then(Then(Then(Ok(base), foreground, qr), avatar, qr), background, qr);
            r.Ok? <==> last.Ok?
    ensures var r := Render(qr, round, foreground, avatar, background, base);
            var last := Then(Then(Then(Ok(base), foreground, qr), avatar, qr), background, qr);
            r.Ok? ==> r.value.RoundMask? && r.value.round == round && Bounds(r.value) == Bounds(last.value)
  {
  }

  /** `QrCode`: the encoder settings, the corner radius and the three
      optional overlay stages. */
  class QrCode {
    var qr: EncoderSettings
    var round: int
    var avatar: Option<Stage>
    var foregroundImage: Option<Stage>
    var backgroundImage: Option<Stage>

    /** `New`: the encoder has accepted the content; no radius, no stages. */
    constructor (qr: EncoderSettings)
      ensures this.qr == qr && round == 0
      ensures avatar == None && foregroundImage == None && backgroundImage == None
    {
      this.qr := qr;
      round := 0;
      avatar := None;
      foregroundImage := None;
      backgroundImage := None;
    }

    method SetRound(r: int)
      modifies this`round
      ensures round == r
    {
      round := r;
    }

    method SetAvatar(a: Option<Stage>)
      modifies this`avatar
      ensures avatar == a
    {
      avatar := a;
    }

    method SetBackgroundImage(img: Option<Stage>)
      modifies this`backgroundImage
      ensures backgroundImage == img
    {
      backgroundImage := img;
    }

    method SetBackgroundColor(c: Color)
      modifies this`qr
      ensures qr == old(qr).(backgroundColor := c)
    {
      qr := qr.(backgroundColor := c);
    }

    method SetForegroundImage(img: Option<Stage>)
      modifies this`foregroundImage
      ensures foregroundImage == img
    {
      foregroundImage := img;
    }

    method SetForegroundColor(c: Color)
      modifies this`qr
      ensures qr == old(qr).(foregroundColor := c)
    {
      qr := qr.(foregroundColor := c);
    }

    method DisableBorder(disable: bool)
      modifies this`qr
      ensures qr == old(qr).(disableBorder := disable)
    {
      qr := qr.(disableBorder := disable);
    }

    /** `Image(size)`. The QR bitmap itself comes from the external encoder,
        given here as `encode`, which renders the settings at a pixel size. */
    method Image(size: int, encode: (EncoderSettings, int) -> Image) returns (r: Result<Image>)
      ensures r == Render(qr, round, foregroundImage, avatar, backgroundImage, encode(qr, size))
    {
      var img := encode(qr, size);
      if foregroundImage.Some? {
        var out := foregroundImage.value(qr, img);
        if out.Err? {
          return Err(out.error);
        }
        img := out.value;
      }
      if avatar.Some? {
        var out := avatar.value(qr, img);
        if out.Err? {
          return Err(out.error);
        }
        img := out.value;
      }
      if backgroundImage.Some? {
        var out := backgroundImage.value(qr, img);
        if out.Err? {
          return Err(out.error);
        }
        img := out.value;
      }
      r := Ok(NewRoundMask(img, round));
    }
  }
}
