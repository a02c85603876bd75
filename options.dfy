/** The library's settings (`Options.java`): an `Options` object whose fields only its `Builder`
    assigns, and which `build` hands out without copying. */
module Configuration {
  import opened Wrappers
  import opened Platforms
  import opened Command

  /** What an updater given to `updateCurl` does to the command: the builder calls it makes. */
  type Updater = seq<BuilderCall>

  /** All fields of an `Options` object at one moment. */
  datatype Settings = Settings(
    logStacktrace: bool,
    printMultiliner: bool,
    useShortForm: bool,
    curlUpdater: Option<Updater>,
    targetPlatform: Platform,
    escapeNonAscii: bool)

  /** The field initialisers: every flag false, no updater, and the platform recognised from the
      host. */
  const Defaults := Settings(false, false, false, None, RecognizeAutomatically, false)

  class Options {
    var logStacktrace: bool
    var printMultiliner: bool
    var useShortForm: bool
    var curlUpdater: Option<Updater>
    var targetPlatform: Platform
    var escapeNonAscii: bool

    function View(): Settings
      reads this
    {
      Settings(logStacktrace, printMultiliner, useShortForm, curlUpdater, targetPlatform, escapeNonAscii)
    }

    constructor ()
      ensures View() == Defaults
    {
      logStacktrace, printMultiliner, useShortForm := false, false, false;
      curlUpdater, targetPlatform, escapeNonAscii := None, RecognizeAutomatically, false;
    }

    function CanLogStacktrace(): (r: bool)
      reads this
      ensures r == View().logStacktrace
    {
      logStacktrace
    }

    function PrintMultiliner(): (r: bool)
      reads this
      ensures r == View().printMultiliner
    {
      printMultiliner
    }

    function EscapeNonAscii(): (r: bool)
      reads this
      ensures r == View().escapeNonAscii
    {
      escapeNonAscii
    }

    function UseShortForm(): (r: bool)
      reads this
      ensures r == View().useShortForm
    {
      useShortForm
    }

    /** `Optional.ofNullable(curlUpdater)`: a `null` updater reads as none. */
    function GetCurlUpdater(): (r: Option<Updater>)
      reads this
      ensures r == View().curlUpdater
    {
      curlUpdater
    }

    function GetTargetPlatform(): (r: Platform)
      reads this
      ensures r == View().targetPlatform
    {
      targetPlatform
    }
  }

  /** A builder owns one `Options` object from its construction on; every toggle assigns one of
      its fields and returns the builder itself. */
  class Builder {
    const options: Options

    constructor ()
      ensures fresh(options) && options.View() == Defaults
    {
      options := new Options();
    }

    method LogStacktrace() returns (b: Builder)
      modifies options
      ensures b == this && options.View() == old(options.View()).(logStacktrace := true)
    {
      options.logStacktrace := true;
      b := this;
    }

    method DontLogStacktrace() returns (b: Builder)
      modifies options
      ensures b == this && options.View() == old(options.View()).(logStacktrace := false)
    {
      options.logStacktrace := false;
      b := this;
    }

    method PrintMultiliner() returns (b: Builder)
      modifies options
      ensures b == this && options.View() == old(options.View()).(printMultiliner := true)
    {
      options.printMultiliner := true;
      b := this;
    }

    method PrintSingleliner() returns (b: Builder)
      modifies options
      ensures b == this && options.View() == old(options.View()).(printMultiliner := false)
    {
      options.printMultiliner := false;
      b := this;
    }

    method UseShortForm() returns (b: Builder)
      modifies options
      ensures b == this && options.View() == old(options.View()).(useShortForm := true)
    {
      options.useShortForm := true;
      b := this;
    }

    method UseLongForm() returns (b: Builder)
      modifies options
      ensures b == this && options.View() == old(options.View()).(useShortForm := false)
    {
      options.useShortForm := false;
      b := this;
    }

    /** `updateCurl(curlUpdater)`; `None` stands for a `null` argument. */
    method UpdateCurl(curlUpdater: Option<Updater>) returns (b: Builder)
      modifies options
      ensures b == this && options.View() == old(options.View()).(curlUpdater := curlUpdater)
    {
      options.curlUpdater := curlUpdater;
      b := this;
    }

    method TargetPlatform(targetPlatform: Platform) returns (b: Builder)
      modifies options
      ensures b == this && options.View() == old(options.View()).(targetPlatform := targetPlatform)
    {
      options.targetPlatform := targetPlatform;
      b := this;
    }

    method EscapeNonAscii() returns (b: Builder)
      modifies options
      ensures b == this && options.View() == old(options.View()).(escapeNonAscii := true)
    {
      options.escapeNonAscii := true;
      b := this;
    }

    method DontEscapeNonAscii() returns (b: Builder)
      modifies options
      ensures b == this && options.View() == old(options.View()).(escapeNonAscii := false)
    {
      options.escapeNonAscii := false;
      b := this;
    }

    /** Hands out the builder's own object: no copy is made. */
    method Build() returns (o: Options)
      ensures o == options && o.View() == options.View()
    {
      o := options;
    }
  }

  /** `Options.builder()`. */
  method NewBuilder() returns (b: Builder)
    ensures fresh(b) && fresh(b.options) && b.options.View() == Defaults
  {
    b := new Builder();
  }

  /** A client of the builder. The getters of a fresh build report the defaults; paired toggles
      overwrite each other, the last call winning and no other field moving; and since `build`
      returns the builder's own object, two builds are the same object and a toggle made after
      `build` shows through the options already built. */
  method BuilderClient() returns (defaults: Settings, aliased: bool, shortAfterBuild: bool, final: Settings)
    ensures defaults == Defaults
    ensures aliased && shortAfterBuild
    ensures final == Settings(true, false, true, None, Unix, false)
  {
    var b := NewBuilder();
    var first := b.Build();
    defaults := Settings(first.CanLogStacktrace(), first.PrintMultiliner(), first.UseShortForm(),
                         first.GetCurlUpdater(), first.GetTargetPlatform(), first.EscapeNonAscii());
    var b1 := b.PrintMultiliner();
    b1 := b1.PrintSingleliner();
    b1 := b1.EscapeNonAscii();
    b1 := b1.DontEscapeNonAscii();
    b1 := b1.TargetPlatform(Windows);
    b1 := b1.TargetPlatform(Unix);
    b1 := b1.UpdateCurl(Some([SetVerboseCall(false)]));
    b1 := b1.UpdateCurl(None);
    b1 := b1.DontLogStacktrace();
    b1 := b1.LogStacktrace();
    var second := b1.Build();
    aliased := first == second;
    b1 := b1.UseShortForm();
    shortAfterBuild := first.UseShortForm();
    final := first.View();
  }
}
