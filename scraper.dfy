/** The narrower classifier variant (backend/scraper/unwrap.py): shorter
    phrase, signal and keyword lists, and a theme decision list that checks
    build errors before analog sensors. Every check is an `any(...)` over a
    list, so the whole variant is pure functions. */
module ScraperUnwrap {
  import opened Text
  import opened Posts

  const BadPhrases: seq<string> := ["i made", "huge update", "showcase", "tutorial", "built this"]
  const HelpSignals: seq<string> := ["help", "not working", "error", "problem", "beginner", "issue"]
  const Keywords: seq<string> := [
    "arduino", "esp32", "stm32", "microcontroller", "embedded", "uart", "i2c", "spi"]

  /** The filter's verdict on a normalized text: no showcase phrase, some
      help signal and some keyword. */
  predicate Accepts(t: string) {
    && !ContainsAny(t, BadPhrases)
    && ContainsAny(t, HelpSignals)
    && ContainsAny(t, Keywords)
  }

  /** `matches_keywords`, in the source's order of early returns. */
  function MatchesKeywords(post: Post): (matched: bool)
    ensures matched <==> Accepts(PostText(post))
  {
    var t := PostText(post);
    if ContainsAny(t, BadPhrases) then false
    else if !ContainsAny(t, HelpSignals) then false
    else ContainsAny(t, Keywords)
  }

  // ---------------------------------------------------------------------
  // Theme assignment
  // ---------------------------------------------------------------------

  const PowerWords: seq<string> := ["power", "voltage", "battery", "5v", "3.3v"]
  const CommunicationWords: seq<string> := ["i2c", "spi", "uart", "serial", "can"]
  const BuildWords: seq<string> := ["error", "compile", "upload", "flash"]
  const AnalogWords: seq<string> := ["sensor", "adc", "analog"]

  /** The decision list of `assign_theme`: power, communication, build
      errors, analog, then the fallback. */
  function ThemeOf(t: string): Theme {
    if ContainsAny(t, PowerWords) then WiringAndPower
    else if ContainsAny(t, CommunicationWords) then Communication
    else if ContainsAny(t, BuildWords) then BuildCompileErrors
    else if ContainsAny(t, AnalogWords) then AnalogAndSensors
    else GeneralBeginnerHelp
  }

  /** `assign_theme`: the label of the first matching group. */
  function AssignTheme(post: Post): (theme: string)
    ensures theme in ThemeLabels
  {
    Label(ThemeOf(PostText(post)))
  }

  /** Build errors are checked before sensors: a text with "sensor" and
      "error" and no power or communication word is a build error. */
  lemma ErrorBeforeAnalog(t: string)
    requires Contains(t, "sensor") && Contains(t, "error")
    requires !ContainsAny(t, PowerWords) && !ContainsAny(t, CommunicationWords)
    ensures ThemeOf(t) == BuildCompileErrors
  {
    assert BuildWords[0] == "error";
  }

  /** The fallback is chosen exactly when none of the four groups occurs. */
  lemma GeneralIffNoGroup(t: string)
    ensures ThemeOf(t) == GeneralBeginnerHelp <==>
      && !ContainsAny(t, PowerWords)
      && !ContainsAny(t, CommunicationWords)
      && !ContainsAny(t, BuildWords)
      && !ContainsAny(t, AnalogWords)
  {
  }

  /** An accepted text with a bus-protocol keyword and no power word is a
      communication question. */
  lemma AcceptedProtocolIsCommunication(t: string, kw: string)
    requires Accepts(t)
    requires kw in ["uart", "i2c", "spi"] && Contains(t, kw)
    requires !ContainsAny(t, PowerWords)
    ensures ThemeOf(t) == Communication
  {
    var k :| 0 <= k < 3 && ["uart", "i2c", "spi"][k] == kw;
    assert kw == CommunicationWords[[2, 0, 1][k]];
  }
}
