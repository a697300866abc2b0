/** How the two classifier variants relate: the narrower lists are sublists
    of the broader ones, which bounds where the two filters can disagree,
    and the swapped order of the analog and build-error groups is the only
    place where the two theme decision lists disagree. */
module Variants {
  import opened Text
  import opened Posts
  import Insights = InsightsUnwrap
  import Scraper = ScraperUnwrap

  /** Every phrase, signal and keyword of the narrower variant is also in
      the broader variant's list. */
  lemma NarrowListsAreSublists()
    ensures forall w :: w in Scraper.BadPhrases ==> w in Insights.BadPhrases
    ensures forall w :: w in Scraper.HelpSignals ==> w in Insights.HelpSignals
    ensures forall w :: w in Scraper.Keywords ==> w in Insights.Keywords
  {
  }

  lemma AnySublist(t: string, small: seq<string>, large: seq<string>)
    requires forall w :: w in small ==> w in large
    ensures ContainsAny(t, small) ==> ContainsAny(t, large)
  {
    if ContainsAny(t, small) {
      var k :| 0 <= k < |small| && Contains(t, small[k]);
      assert small[k] in large;
      var m :| 0 <= m < |large| && large[m] == small[k];
    }
  }

  /** A text the narrow filter keeps is kept by the broad filter unless it
      carries one of the broad filter's showcase phrases. */
  lemma NarrowAcceptImpliesBroad(t: string)
    requires Scraper.Accepts(t) && !ContainsAny(t, Insights.BadPhrases)
    ensures Insights.Accepts(t)
  {
    NarrowListsAreSublists();
    AnySublist(t, Scraper.HelpSignals, Insights.HelpSignals);
    AnySublist(t, Scraper.Keywords, Insights.Keywords);
  }

  /** A text the broad filter keeps is kept by the narrow filter when it
      also has a narrow help signal and a narrow keyword. */
  lemma BroadAcceptImpliesNarrow(t: string)
    requires Insights.Accepts(t)
    requires ContainsAny(t, Scraper.HelpSignals) && ContainsAny(t, Scraper.Keywords)
    ensures Scraper.Accepts(t)
  {
    NarrowListsAreSublists();
    AnySublist(t, Scraper.BadPhrases, Insights.BadPhrases);
  }

  /** Outside the power group the two analog groups agree: the broad
      group's extra entry "voltage divider" is never the deciding one. */
  lemma AnalogGroupsAgree(t: string)
    requires !ContainsAny(t, Insights.PowerWords)
    ensures ContainsAny(t, Insights.AnalogWords) <==> ContainsAny(t, Scraper.AnalogWords)
  {
    if ContainsAny(t, Insights.AnalogWords) {
      var k :| 0 <= k < 4 && Contains(t, Insights.AnalogWords[k]);
      Insights.VoltageDividerNeverDecides(t);
      assert k != 3;
      assert Scraper.AnalogWords[k] == Insights.AnalogWords[k];
    }
    if ContainsAny(t, Scraper.AnalogWords) {
      var k :| 0 <= k < 3 && Contains(t, Scraper.AnalogWords[k]);
      assert Insights.AnalogWords[k] == Scraper.AnalogWords[k];
    }
  }

  /** The two decision lists disagree exactly when the text has no power or
      communication word but has both an analog word and a build word; the
      broad variant then says analog, the narrow one build error. */
  lemma ThemesDisagreeIff(t: string)
    ensures Insights.ThemeOf(t) != Scraper.ThemeOf(t) <==>
      && !ContainsAny(t, Insights.PowerWords)
      && !ContainsAny(t, Insights.CommunicationWords)
      && ContainsAny(t, Scraper.AnalogWords)
      && ContainsAny(t, Insights.BuildWords)
    ensures Insights.ThemeOf(t) != Scraper.ThemeOf(t) ==>
      Insights.ThemeOf(t) == AnalogAndSensors && Scraper.ThemeOf(t) == BuildCompileErrors
  {
    assert Insights.PowerWords == Scraper.PowerWords;
    assert Insights.CommunicationWords == Scraper.CommunicationWords;
    assert Insights.BuildWords == Scraper.BuildWords;
    if !ContainsAny(t, Insights.PowerWords) {
      AnalogGroupsAgree(t);
    }
  }

  /** "sensor" together with "error": the broad variant files the text
      under analog sensors, the narrow one under build errors. */
  lemma SensorErrorExample()
    ensures Insights.ThemeOf("sensor error ") == AnalogAndSensors
    ensures Scraper.ThemeOf("sensor error ") == BuildCompileErrors
  {
    var t := "sensor error ";
    NoneOccurs(t, Insights.PowerWords, "pvb53");
    NoneOccurs(t, Insights.CommunicationWords, "ipuic");
    assert OccursAt(t, "sensor", 0) && OccursAt(t, "error", 7);
    ThemesDisagreeIff(t);
    assert Scraper.AnalogWords[0] == "sensor";
    assert Insights.BuildWords[0] == "error";
  }

  /** A text whose only broad help signals are "why", "can't" or "unable"
      has no narrow help signal, so the narrow filter drops it. */
  lemma BroadOnlySignalsDropped(t: string)
    requires forall k :: 0 <= k < |Insights.HelpSignals| && Contains(t, Insights.HelpSignals[k]) ==>
      Insights.HelpSignals[k] in ["why", "can't", "unable"]
    ensures !ContainsAny(t, Scraper.HelpSignals)
    ensures !Scraper.Accepts(t)
  {
    forall j | 0 <= j < |Scraper.HelpSignals| ensures !Contains(t, Scraper.HelpSignals[j]) {
      var m := [0, 1, 6, 7, 8, 13][j];
      assert Insights.HelpSignals[m] == Scraper.HelpSignals[j];
    }
  }

  /** A text whose only broad keywords are "serial", "sensor" or "gpio" has
      no narrow keyword, so the narrow filter drops it. */
  lemma BroadOnlyKeywordsDropped(t: string)
    requires forall k :: 0 <= k < |Insights.Keywords| && Contains(t, Insights.Keywords[k]) ==>
      Insights.Keywords[k] in ["serial", "sensor", "gpio"]
    ensures !ContainsAny(t, Scraper.Keywords)
    ensures !Scraper.Accepts(t)
  {
    forall j | 0 <= j < |Scraper.Keywords| ensures !Contains(t, Scraper.Keywords[j]) {
      var m := [0, 1, 2, 3, 4, 8, 6, 7][j];
      assert Insights.Keywords[m] == Scraper.Keywords[j];
    }
  }

  /** The broad filter keeps "why uart ": "why" is one of its help signals. */
  lemma BroadKeepsWhy()
    ensures Insights.Accepts("why uart ")
  {
    var t := "why uart ";
    assert Insights.HelpSignals[11] == "why" && Insights.Keywords[8] == "uart";
    assert OccursAt(t, "why", 0) && OccursAt(t, "uart", 4);
    NoneOccurs(t, Insights.BadPhrases, "igdpsibm");
  }

  /** The broad filter keeps "gpio problem ": "gpio" is one of its keywords. */
  lemma BroadKeepsGpio()
    ensures Insights.Accepts("gpio problem ")
  {
    var t := "gpio problem ";
    assert Insights.Keywords[5] == "gpio" && Insights.HelpSignals[7] == "problem";
    assert OccursAt(t, "gpio", 0) && OccursAt(t, "problem", 5);
    NoneOccurs(t, Insights.BadPhrases, "ahujsttj");
  }

  /** "why uart " has none of the narrow filter's six help signals, so the
      narrow filter drops a text the broad filter keeps. */
  lemma NarrowDropsWhy()
    ensures !ContainsAny("why uart ", Scraper.HelpSignals)
    ensures !Scraper.Accepts("why uart ")
  {
    NoneOccurs("why uart ", Scraper.HelpSignals, "eneebi");
  }

  /** "gpio problem " has none of the narrow filter's eight keywords, so the
      narrow filter drops a text the broad filter keeps. */
  lemma NarrowDropsGpio()
    ensures !ContainsAny("gpio problem ", Scraper.Keywords)
    ensures !Scraper.Accepts("gpio problem ")
  {
    NoneOccurs("gpio problem ", Scraper.Keywords, "asscda2s");
  }

  /** "update to my" is a showcase marker of the broad variant only: this
      text is dropped by the broad filter and kept by the narrow one. */
  lemma UpdateToMyIsNarrowAccepted()
    ensures Scraper.Accepts("help uart update to my ")
    ensures !Insights.Accepts("help uart update to my ")
  {
    var t := "help uart update to my ";
    assert Insights.BadPhrases[2] == "update to my";
    assert OccursAt(t, "update to my", 10);
    NarrowKeepsUpdateToMy();
  }

  /** The narrow filter keeps the text: help signal, keyword, and none of
      its five showcase phrases. */
  lemma NarrowKeepsUpdateToMy()
    ensures Scraper.Accepts("help uart update to my ")
  {
    var t := "help uart update to my ";
    assert Scraper.Keywords[5] == "uart" && Scraper.HelpSignals[0] == "help";
    assert OccursAt(t, "help", 0) && OccursAt(t, "uart", 5);
    NoneOccurs(t, Scraper.BadPhrases, "igcib");
  }
}
