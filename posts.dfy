/** The post record both classifier variants consume, the text they match
    against, and the closed set of theme labels they assign. */
module Posts {
  import opened Text

  /** One ingested post. `score`, `numComments` and `url` are carried
      through and never read by the classifier. */
  datatype Post = Post(
    subreddit: string,
    title: string,
    selftext: string,
    score: int,
    numComments: int,
    url: string)

  /** The text every rule is checked against: the title and the body joined
      by one space, then normalized. */
  function PostText(p: Post): string {
    Normalize(p.title + " " + p.selftext)
  }

  /** The matched text is normalized, never empty (the join contributes a
      space), and its non-whitespace characters are the title's and the
      body's, lowercased, in order. */
  lemma PostTextShape(p: Post)
    ensures IsNormalized(PostText(p))
    ensures |PostText(p)| > 0
    ensures Squeeze(PostText(p)) == Lower(Squeeze(p.title + p.selftext))
  {
    var joined := p.title + " " + p.selftext;
    NormalizeShape(joined);
    assert joined == p.title + (" " + p.selftext);
    SqueezeConcat(p.title, " " + p.selftext);
    SqueezeConcat(p.title, p.selftext);
    assert (" " + p.selftext)[0] == ' ' && (" " + p.selftext)[1..] == p.selftext;
  }

  lemma {:induction false} SqueezeConcat(a: string, b: string)
    ensures Squeeze(a + b) == Squeeze(a) + Squeeze(b)
    decreases |a|
  {
    if a == [] {
      assert a + b == b;
    } else {
      assert (a + b)[0] == a[0] && (a + b)[1..] == a[1..] + b;
      SqueezeConcat(a[1..], b);
    }
  }

  /** When the joined text is already normalized, matching sees exactly the
      title, one space and the body. */
  lemma PostTextOfNormalized(p: Post)
    requires IsNormalized(p.title + " " + p.selftext)
    ensures PostText(p) == p.title + " " + p.selftext
  {
    NormalizeFixpointIff(p.title + " " + p.selftext);
  }

  /** A phrase may straddle the join: the end of the title, the separating
      space and the start of the body form an occurring phrase. */
  lemma PhraseStraddlesJoin(p: Post, i: nat, j: nat)
    requires IsNormalized(p.title + " " + p.selftext)
    requires i <= |p.title| && j <= |p.selftext|
    ensures Contains(PostText(p), p.title[i..] + " " + p.selftext[..j])
  {
    PostTextOfNormalized(p);
    var t := p.title + " " + p.selftext;
    var phrase := p.title[i..] + " " + p.selftext[..j];
    assert t[i..i + |phrase|] == phrase;
    assert OccursAt(t, phrase, i);
  }

  /** A phrase without a space cannot straddle the join: in an already
      normalized post it occurs in the matched text exactly when it occurs
      in the title or in the body. */
  lemma PhraseWithoutSpaceStaysInField(p: Post, w: string)
    requires IsNormalized(p.title + " " + p.selftext)
    requires ' ' !in w
    ensures Contains(PostText(p), w) <==> Contains(p.title, w) || Contains(p.selftext, w)
  {
    PostTextOfNormalized(p);
    assert p.title + " " + p.selftext == p.title + [' '] + p.selftext;
    ContainsInConcat(p.title, [' '] + p.selftext, w);
    ContainsInConcat([' '], p.selftext, w);
    assert p.title + ([' '] + p.selftext) == p.title + [' '] + p.selftext;
    if !Contains(p.title, w) && !Contains(p.selftext, w) {
      NotContainsAcross(p.title, ' ', p.selftext, w);
    }
  }

  /** The five theme labels. */
  datatype Theme =
    | WiringAndPower
    | Communication
    | AnalogAndSensors
    | BuildCompileErrors
    | GeneralBeginnerHelp

  /** The label string stored for each theme. */
  function Label(th: Theme): string {
    match th
    case WiringAndPower => "Wiring & Power"
    case Communication => "Communication"
    case AnalogAndSensors => "Analog & Sensors"
    case BuildCompileErrors => "Build / Compile Errors"
    case GeneralBeginnerHelp => "General Beginner Help"
  }

  const ThemeLabels: seq<string> := [
    "Wiring & Power", "Communication", "Analog & Sensors",
    "Build / Compile Errors", "General Beginner Help"]

  /** Every theme has one of the five labels, and distinct themes have
      distinct labels, so a label names its theme. */
  lemma LabelsAreFiveDistinct(a: Theme, b: Theme)
    ensures Label(a) in ThemeLabels
    ensures Label(a) == Label(b) ==> a == b
  {
  }
}
