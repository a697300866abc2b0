/** The broader classifier variant (backend/insights/unwrap.py): an
    exclusion pass over showcase phrases, a help-signal pass and a domain
    keyword pass decide whether a post is kept; a first-match decision list
    assigns its theme. */
module InsightsUnwrap {
  import opened Text
  import opened Posts

  /** Embedded-programming keywords; at least one must occur. */
  const Keywords: seq<string> := [
    "arduino", "esp32", "stm32", "microcontroller", "embedded", "gpio",
    "i2c", "spi", "uart", "serial", "firmware", "sensor", "adc", "pwm",
    "breadboard"]

  /** Showcase and announcement markers; any one rejects the post. */
  const BadPhrases: seq<string> := [
    "i made", "huge update", "update to my", "project update", "showcase",
    "tutorial", "built this", "my journey"]

  /** Help-seeking language; at least one must occur. */
  const HelpSignals: seq<string> := [
    "help", "not working", "doesn't work", "doesnt work", "cant", "can't",
    "error", "problem", "beginner", "newbie", "how do i", "why", "confused",
    "issue", "fail", "unable"]

  /** The filter's verdict on a normalized text: no showcase phrase, some
      help signal and some keyword, each by substring containment. */
  predicate Accepts(t: string) {
    && !ContainsAny(t, BadPhrases)
    && ContainsAny(t, HelpSignals)
    && ContainsAny(t, Keywords)
  }

  /** `matches_keywords`: three ordered scans with early exits. */
  method MatchesKeywords(post: Post) returns (matched: bool)
    ensures matched <==> Accepts(PostText(post))
    ensures ContainsAny(PostText(post), BadPhrases) ==> !matched
  {
    var t := PostText(post);

    for i := 0 to |BadPhrases|
      invariant forall k :: 0 <= k < i ==> !Contains(t, BadPhrases[k])
    {
      if Contains(t, BadPhrases[i]) {
        assert ContainsAny(t, BadPhrases);
        return false;
      }
    }

    var hasHelpSignal := false;
    for i := 0 to |HelpSignals|
      invariant !hasHelpSignal
      invariant forall k :: 0 <= k < i ==> !Contains(t, HelpSignals[k])
    {
      if Contains(t, HelpSignals[i]) {
        hasHelpSignal := true;
        break;
      }
    }

    assert hasHelpSignal <==> ContainsAny(t, HelpSignals);
    if !hasHelpSignal {
      return false;
    }

    for i := 0 to |Keywords|
      invariant forall k :: 0 <= k < i ==> !Contains(t, Keywords[k])
    {
      if Contains(t, Keywords[i]) {
        assert ContainsAny(t, Keywords);
        return true;
      }
    }

    return false;
  }

  // ---------------------------------------------------------------------
  // Theme assignment
  // ---------------------------------------------------------------------

  const PowerWords: seq<string> := ["power", "voltage", "battery", "5v", "3.3v"]
  const CommunicationWords: seq<string> := ["i2c", "spi", "uart", "serial", "can"]
  const AnalogWords: seq<string> := ["sensor", "adc", "analog", "voltage divider"]
  const BuildWords: seq<string> := ["error", "compile", "upload", "flash"]

  /** The decision list of `assign_theme` on a normalized text: power,
      communication, analog, build errors, then the fallback. */
  function ThemeOf(t: string): Theme {
    if ContainsAny(t, PowerWords) then WiringAndPower
    else if ContainsAny(t, CommunicationWords) then Communication
    else if ContainsAny(t, AnalogWords) then AnalogAndSensors
    else if ContainsAny(t, BuildWords) then BuildCompileErrors
    else GeneralBeginnerHelp
  }

  /** `assign_theme`: the label of the first matching group. */
  function AssignTheme(post: Post): (theme: string)
    ensures theme in ThemeLabels
  {
    var th := ThemeOf(PostText(post));
    LabelsAreFiveDistinct(th, th);
    Label(th)
  }

  /** A power word decides the theme, whatever else the text mentions. */
  lemma PowerWordDecides(t: string, w: string)
    requires w in PowerWords && Contains(t, w)
    ensures ThemeOf(t) == WiringAndPower
  {
    var k :| 0 <= k < |PowerWords| && PowerWords[k] == w;
  }

  /** "voltage divider" contains "voltage", so it is caught by the power
      group first: the analog group's last entry never decides a theme. */
  lemma VoltageDividerNeverDecides(t: string)
    ensures Contains(t, "voltage divider") ==> ThemeOf(t) == WiringAndPower
    ensures ThemeOf(t) == AnalogAndSensors ==>
              exists k | 0 <= k < 3 :: Contains(t, AnalogWords[k])
  {
    assert OccursAt("voltage divider", "voltage", 0);
    if Contains(t, "voltage divider") {
      ContainsTransitive(t, "voltage divider", "voltage");
      assert PowerWords[1] == "voltage";
    }
    if ThemeOf(t) == AnalogAndSensors {
      var k :| 0 <= k < |AnalogWords| && Contains(t, AnalogWords[k]);
      assert k != 3;
    }
  }

  /** Any word containing "can" (such as "can't", "cant", "scan") puts a
      text without a power word into the communication group. */
  lemma CanCapturesCommunication(t: string, w: string)
    requires Contains(w, "can") && Contains(t, w)
    requires !ContainsAny(t, PowerWords)
    ensures ThemeOf(t) == Communication
  {
    ContainsTransitive(t, w, "can");
    assert CommunicationWords[4] == "can";
  }

  /** The help signals "can't" and "cant" are themselves read as
      communication words. */
  lemma CantIsCommunication(t: string)
    requires Contains(t, "can't") || Contains(t, "cant") || Contains(t, "scan")
    requires !ContainsAny(t, PowerWords)
    ensures ThemeOf(t) == Communication
  {
    assert OccursAt("can't", "can", 0);
    assert OccursAt("cant", "can", 0);
    assert OccursAt("scan", "can", 1);
    if Contains(t, "can't") {
      CanCapturesCommunication(t, "can't");
    } else if Contains(t, "cant") {
      CanCapturesCommunication(t, "cant");
    } else {
      CanCapturesCommunication(t, "scan");
    }
  }

  /** A text mentioning "error" never falls through to the fallback. */
  lemma ErrorNeverGeneral(t: string)
    requires Contains(t, "error")
    ensures ThemeOf(t) != GeneralBeginnerHelp
  {
    assert BuildWords[0] == "error";
  }

  /** The fallback is chosen exactly when none of the four groups occurs. */
  lemma GeneralIffNoGroup(t: string)
    ensures ThemeOf(t) == GeneralBeginnerHelp <==>
      && !ContainsAny(t, PowerWords)
      && !ContainsAny(t, CommunicationWords)
      && !ContainsAny(t, AnalogWords)
      && !ContainsAny(t, BuildWords)
  {
  }

  /** A protocol or sensor keyword that let a post through also keeps its
      theme among the hardware themes. */
  lemma ProtocolKeywordTheme(t: string, kw: string)
    requires kw in ["i2c", "spi", "uart", "serial", "sensor", "adc"]
    requires Contains(t, kw)
    ensures ThemeOf(t) in {WiringAndPower, Communication, AnalogAndSensors}
  {
    if kw in CommunicationWords {
      var k :| 0 <= k < |CommunicationWords| && CommunicationWords[k] == kw;
    } else {
      assert kw == AnalogWords[0] || kw == AnalogWords[1];
    }
  }

  /** Containment is not word matching: "serialization" satisfies the
      keyword "serial" and the communication group. */
  lemma SerializationMatchesSerial(t: string)
    requires Contains(t, "serialization")
    ensures ContainsAny(t, Keywords)
    ensures ThemeOf(t) in {WiringAndPower, Communication}
  {
    assert OccursAt("serialization", "serial", 0);
    ContainsTransitive(t, "serialization", "serial");
    assert Keywords[9] == "serial";
    assert CommunicationWords[3] == "serial";
  }

  // ---------------------------------------------------------------------
  // Worked examples (texts as `normalize` leaves them)
  // ---------------------------------------------------------------------

  /** A showcase phrase rejects even a text with a help signal and a keyword. */
  lemma ShowcaseRejectedDespiteHelp()
    ensures !Accepts("i made uart help ")
    ensures ContainsAny("i made uart help ", HelpSignals)
    ensures ContainsAny("i made uart help ", Keywords)
  {
    var t := "i made uart help ";
    assert BadPhrases[0] == "i made" && Keywords[8] == "uart" && HelpSignals[0] == "help";
    assert OccursAt(t, "i made", 0) && OccursAt(t, "uart", 7) && OccursAt(t, "help", 12);
  }

  /** A keyword without any help signal is rejected. */
  lemma KeywordWithoutHelpRejected()
    ensures ContainsAny("esp32 ", Keywords)
    ensures !ContainsAny("esp32 ", HelpSignals)
    ensures !Accepts("esp32 ")
  {
    assert Keywords[1] == "esp32" && OccursAt("esp32 ", "esp32", 0);
    NoneOccurs("esp32 ", HelpSignals, "hnddccrrbnhwcifu");
  }

  /** A help signal without any keyword is rejected. */
  lemma HelpWithoutKeywordRejected()
    ensures ContainsAny("help ", HelpSignals)
    ensures !ContainsAny("help ", Keywords)
    ensures !Accepts("help ")
  {
    assert HelpSignals[0] == "help" && OccursAt("help ", "help", 0);
    NoneOccurs("help ", Keywords, "assmmgisusfsawb");
  }

  /** A help signal and a keyword with no showcase phrase are accepted. */
  lemma HelpWithKeywordAccepted()
    ensures Accepts("help uart ")
  {
    var t := "help uart ";
    assert HelpSignals[0] == "help" && Keywords[8] == "uart";
    assert OccursAt(t, "help", 0) && OccursAt(t, "uart", 5);
    NoneOccurs(t, BadPhrases, "igdjsibm");
  }

  /** The accepted example carried to a post: title "help uart" and an
      empty body are matched as "help uart ", which `MatchesKeywords`
      accepts by its postcondition. */
  lemma HelpWithKeywordPostAccepted(p: Post)
    requires p.title == "help uart" && p.selftext == ""
    ensures PostText(p) == "help uart "
    ensures Accepts(PostText(p))
  {
    assert p.title + " " + p.selftext == "help uart ";
    HelpUartIsNormalized();
    PostTextOfNormalized(p);
    HelpWithKeywordAccepted();
  }

  lemma HelpUartIsNormalized()
    ensures IsNormalized("help uart ")
  {
    var s := "help uart ";
    forall i | 0 <= i < |s| ensures !IsUpper(s[i]) && (IsWhitespace(s[i]) <==> i == 4 || i == 9) {
    }
  }
}
