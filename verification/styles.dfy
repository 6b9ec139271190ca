/**
  The text style of a report, chosen by exact, case-sensitive lookup of the
  condition description in a closed vocabulary of fifteen phrases.
 */
module Styles {
  import opened Text

  datatype Style = BrightYellow | BrightBlue | Dimmed | BrightCyan | Normal

  /** The phrases of each highlighted category. */
  const SunnyWords: set<string> := {"clear sky"}
  const CloudWords: set<string> := {"few clouds", "scattered clouds", "broken clouds"}
  const HazeWords: set<string> := {"overcast clouds", "mist", "haze", "smoke", "sand", "dust", "fog"}
  const WetWords: set<string> := {"shower rain", "rain", "thunderstorm", "snow"}

  /** Every description that receives a highlighted style. */
  const Vocabulary: set<string> := SunnyWords + CloudWords + HazeWords + WetWords

  /** The phrases a highlighted style is assigned to (none for Normal). */
  function WordsOf(s: Style): set<string> {
    match s
    case BrightYellow => SunnyWords
    case BrightBlue => CloudWords
    case Dimmed => HazeWords
    case BrightCyan => WetWords
    case Normal => {}
  }

  /** The style for a description, matched arm by arm as the program does;
      anything else falls through to Normal. */
  function StyleOf(d: string): (s: Style)
    ensures s != Normal <==> d in Vocabulary
    ensures s != Normal ==> d in WordsOf(s)
  {
    if d == "clear sky" then BrightYellow
    else if d == "few clouds" || d == "scattered clouds" || d == "broken clouds" then BrightBlue
    else if d == "overcast clouds" || d == "mist" || d == "haze" || d == "smoke"
         || d == "sand" || d == "dust" || d == "fog" then Dimmed
    else if d == "shower rain" || d == "rain" || d == "thunderstorm" || d == "snow" then BrightCyan
    else Normal
  }

  /** A highlighted style is given to exactly the phrases of its category. */
  lemma StyleOfCategory(d: string, s: Style)
    requires s != Normal
    ensures StyleOf(d) == s <==> d in WordsOf(s)
  {
  }

  /** The four categories are pairwise disjoint, so no phrase is claimed by
      two arms of the match. */
  lemma CategoriesDisjoint()
    ensures SunnyWords !! CloudWords && SunnyWords !! HazeWords && SunnyWords !! WetWords
    ensures CloudWords !! HazeWords && CloudWords !! WetWords && HazeWords !! WetWords
  {
  }

  /** Upper-cases the first letter of a phrase. */
  function Capitalise(d: string): string {
    if |d| > 0 then [UpperChar(d[0])] + d[1..] else d
  }

  /** Matching is case-sensitive: a known phrase with an upper-case initial
      falls through to the Normal style. */
  lemma CapitalisedIsNormal(d: string)
    requires d in Vocabulary
    ensures StyleOf(Capitalise(d)) == Normal
  {
    assert forall w | w in Vocabulary :: |w| > 0 && IsLower(w[0]);
    assert IsUpper(Capitalise(d)[0]);
  }

  lemma ClearSkyExamples()
    ensures StyleOf("clear sky") == BrightYellow
    ensures StyleOf("Clear sky") == Normal
    ensures StyleOf("clear sky ") == Normal
  {
  }
}
