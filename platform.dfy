/** The platform a command is rendered for (`Platform.java`): whether it is Windows, and which line
    separator it uses. */
module Platforms {
  import opened Wrappers
  import opened JavaStrings

  /** The three enum constants. */
  datatype Platform = RecognizeAutomatically | Windows | Unix

  /** What `RECOGNIZE_AUTOMATICALLY` reads from the running JVM when the enum is initialised: the
      `os.name` system property (`None` when it is unset) and `System.lineSeparator()`. */
  datatype HostEnvironment = HostEnvironment(osName: Option<string>, lineSeparator: string)

  /** The two constructor arguments of each constant, fixed once the enum is initialised. */
  function Fields(p: Platform, host: HostEnvironment): (bool, string)
  {
    match p
    case RecognizeAutomatically =>
      (host.osName.Some? && StartsWith(host.osName.value, "Windows"), host.lineSeparator)
    case Windows => (true, "\r\n")
    case Unix => (false, "\n")
  }

  /** `isOsWindows()`: the first constructor argument of the constant. */
  function IsOsWindows(p: Platform, host: HostEnvironment): (r: bool)
    ensures p == Windows ==> r
    ensures p == Unix ==> !r
    ensures p == RecognizeAutomatically ==> (r <==> host.osName.Some? && StartsWith(host.osName.value, "Windows"))
  {
    Fields(p, host).0
  }

  /** `lineSeparator()`: the second constructor argument of the constant. */
  function LineSeparator(p: Platform, host: HostEnvironment): (r: string)
    ensures p == Windows ==> r == "\r\n"
    ensures p == Unix ==> r == "\n"
    ensures p == RecognizeAutomatically ==> r == host.lineSeparator
  {
    Fields(p, host).1
  }

  /** `WINDOWS` and `UNIX` do not depend on the host; `RECOGNIZE_AUTOMATICALLY` is Windows exactly
      when the first seven characters of `os.name` are "Windows". */
  lemma PlatformFacts(host: HostEnvironment, other: HostEnvironment)
    ensures IsOsWindows(Windows, host) == IsOsWindows(Windows, other) && LineSeparator(Windows, host) == LineSeparator(Windows, other)
    ensures IsOsWindows(Unix, host) == IsOsWindows(Unix, other) && LineSeparator(Unix, host) == LineSeparator(Unix, other)
    ensures IsOsWindows(RecognizeAutomatically, host) <==>
              host.osName.Some? && |host.osName.value| >= 7 && host.osName.value[..7] == "Windows"
  {
  }
}
