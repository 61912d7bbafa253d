/**
 * The event colour scheme: the `EVENT_COLORS` table, its three lookups, and
 * `suggestEventColor`, which scores each colour by the keywords that occur in
 * an event's title and description and picks the best one.
 */
module Colors {
  import opened Wrappers
  import opened Text

  /** The eight keys of `EVENT_COLORS`, in declaration order. */
  datatype EventColor = Yellow | Orange | Blue | Purple | Green | Red | Black | Pink

  /** The colours in the order `Object.entries` and `Object.values` list them. */
  const AllColors: seq<EventColor> := [Yellow, Orange, Blue, Purple, Green, Red, Black, Pink]

  function Ordinal(c: EventColor): (i: nat)
    ensures i < |AllColors| && AllColors[i] == c
  {
    match c
    case Yellow => 0
    case Orange => 1
    case Blue => 2
    case Purple => 3
    case Green => 4
    case Red => 5
    case Black => 6
    case Pink => 7
  }

  /** `Ordinal` inverts indexing into `AllColors`. */
  lemma OrdinalOfIndex(i: nat)
    requires i < |AllColors|
    ensures Ordinal(AllColors[i]) == i
  {
    if i < 4 {
      assert i == 0 || i == 1 || i == 2 || i == 3;
    } else {
      assert i == 4 || i == 5 || i == 6 || i == 7;
    }
  }

  /** The key as it appears in the JSON replies and the table. */
  function Key(c: EventColor): string
  {
    match c
    case Yellow => "yellow"
    case Orange => "orange"
    case Blue => "blue"
    case Purple => "purple"
    case Green => "green"
    case Red => "red"
    case Black => "black"
    case Pink => "pink"
  }

  /** One entry of `EVENT_COLORS`. */
  datatype ColorConfig = ColorConfig(
    name: string, concepts: seq<string>,
    bg: string, border: string, text: string, hover: string, badge: string)

  /** The CSS classes `getEventColorClasses` returns. */
  datatype ColorClasses = ColorClasses(bg: string, border: string, text: string, hover: string, badge: string)

  /** `EVENT_COLORS[c]`: a named entry with three concepts. */
  function EventColors(c: EventColor): (r: ColorConfig)
    ensures |r.concepts| == 3 && r.name != []
  {
    match c
    case Yellow => ColorConfig("Yellow", ["Energy", "Joy", "Warmth"],
      "bg-yellow-100", "border-yellow-300", "text-yellow-800", "hover:bg-yellow-200", "bg-yellow-500 text-white")
    case Orange => ColorConfig("Orange", ["Creativity", "Enthusiasm", "Excitement"],
      "bg-orange-100", "border-orange-300", "text-orange-800", "hover:bg-orange-200", "bg-orange-500 text-white")
    case Blue => ColorConfig("Blue", ["Calm", "Patience", "Security"],
      "bg-blue-100", "border-blue-300", "text-blue-800", "hover:bg-blue-200", "bg-blue-500 text-white")
    case Purple => ColorConfig("Purple", ["Ambition", "Wisdom", "Power"],
      "bg-purple-100", "border-purple-300", "text-purple-800", "hover:bg-purple-200", "bg-purple-500 text-white")
    case Green => ColorConfig("Green", ["Growth", "Healing", "Balance"],
      "bg-green-100", "border-green-300", "text-green-800", "hover:bg-green-200", "bg-green-500 text-white")
    case Red => ColorConfig("Red", ["Action", "Attention", "Determination"],
      "bg-red-100", "border-red-300", "text-red-800", "hover:bg-red-200", "bg-red-500 text-white")
    case Black => ColorConfig("Black", ["Formality", "Mystery", "Sophistication"],
      "bg-gray-100", "border-gray-300", "text-gray-800", "hover:bg-gray-200", "bg-gray-500 text-white")
    case Pink => ColorConfig("Pink", ["Kindness", "Sensitivity", "Optimism"],
      "bg-pink-100", "border-pink-300", "text-pink-800", "hover:bg-pink-200", "bg-pink-500 text-white")
  }

  /** The five class strings of the table entry, and nothing else of it. */
  function GetEventColorClasses(c: EventColor): (r: ColorClasses)
    ensures var cfg := EventColors(c);
      r == ColorClasses(cfg.bg, cfg.border, cfg.text, cfg.hover, cfg.badge)
  {
    var cfg := EventColors(c);
    ColorClasses(cfg.bg, cfg.border, cfg.text, cfg.hover, cfg.badge)
  }

  /** The display name of the table entry. */
  function GetEventColorName(c: EventColor): (r: string)
    ensures r == EventColors(c).name
  {
    EventColors(c).name
  }

  /** The display name is the key with its first letter in upper case. */
  lemma NameIsCapitalisedKey(c: EventColor)
    ensures var r, k := GetEventColorName(c), Key(c);
      |r| == |k| && r[1..] == k[1..] && r[0] as int == k[0] as int - 32
  {
  }

  /** The entry's concepts: three for every colour. */
  function GetEventColorConcepts(c: EventColor): (r: seq<string>)
    ensures r == EventColors(c).concepts && |r| == 3
  {
    EventColors(c).concepts
  }

  // ------------------------------------------------------------ suggestion

  /** `colorKeywords` of `suggestEventColor`. */
  function Keywords(c: EventColor): (r: seq<string>)
    ensures 7 <= |r| <= 8
  {
    match c
    case Yellow => ["energy", "joy", "warm", "happy", "fun", "party", "celebration", "birthday"]
    case Orange => ["creative", "enthusiasm", "excitement", "innovation", "brainstorm", "workshop", "meeting"]
    case Blue => ["calm", "patience", "security", "meeting", "appointment", "consultation", "therapy"]
    case Purple => ["ambition", "wisdom", "power", "leadership", "strategy", "planning", "executive"]
    case Green => ["growth", "healing", "balance", "health", "wellness", "exercise", "nature", "outdoor"]
    case Red => ["action", "attention", "determination", "urgent", "deadline", "important", "critical"]
    case Black => ["formality", "mystery", "sophistication", "formal", "business", "interview", "presentation"]
    case Pink => ["kindness", "sensitivity", "optimism", "romantic", "date", "love", "care", "support"]
  }

  /** `${title} ${description || ''}`.toLowerCase() */
  function MatchText(title: string, description: Option<string>): (r: string)
    ensures |r| == |title| + 1 + |description.GetOr("")| && r[|title|] == ' '
    ensures forall i :: 0 <= i < |title| ==> r[i] == LowerChar(title[i])
    ensures forall i :: 0 <= i < |description.GetOr("")| ==> r[|title| + 1 + i] == LowerChar(description.GetOr("")[i])
  {
    Lower(title + " " + description.GetOr(""))
  }

  /** No keyword is empty, so none matches every text. */
  lemma KeywordNonEmpty(c: EventColor, k: nat)
    requires k < |Keywords(c)|
    ensures Keywords(c)[k] != [] && !Contains([], Keywords(c)[k])
  {
  }

  /** How many of `keywords` occur in `text`; a keyword found several times counts once. */
  function CountHits(text: string, keywords: seq<string>): (n: nat)
    ensures n <= |keywords|
  {
    if keywords == [] then 0
    else CountHits(text, keywords[..|keywords| - 1]) + (if Contains(text, keywords[|keywords| - 1]) then 1 else 0)
  }

  lemma CountHitsStep(text: string, keywords: seq<string>, k: nat)
    requires k < |keywords|
    ensures CountHits(text, keywords[..k + 1])
      == CountHits(text, keywords[..k]) + (if Contains(text, keywords[k]) then 1 else 0)
  {
    assert keywords[..k + 1][..k] == keywords[..k];
  }

  /** `scores[color]`: how many of the colour's keywords occur in the text, at most eight. */
  function Score(text: string, c: EventColor): (n: nat)
    ensures n <= 8
  {
    CountHits(text, Keywords(c))
  }

  /** `c` has the highest score, and every colour declared before it scores less. */
  predicate IsSuggestion(text: string, c: EventColor) {
    && (forall d :: Score(text, d) <= Score(text, c))
    && (forall d :: Ordinal(d) < Ordinal(c) ==> Score(text, d) < Score(text, c))
  }

  /** `Math.max(...Object.values(scores))`. */
  function MaxScore(scores: seq<nat>): (m: nat)
    requires scores != []
    ensures forall i :: 0 <= i < |scores| ==> scores[i] <= m
    ensures exists i :: 0 <= i < |scores| && scores[i] == m
  {
    if |scores| == 1 then scores[0]
    else
      var m := MaxScore(scores[1..]);
      assert forall i :: 1 <= i < |scores| ==> scores[i] == scores[1..][i - 1];
      if scores[0] >= m then scores[0] else m
  }

  /** `.filter(([_, score]) => score === max).map(([color]) => color)` over the entries from index `from`. */
  function Winners(scores: seq<nat>, max: nat, from: nat): (w: seq<EventColor>)
    requires |scores| == |AllColors| && from <= |scores|
    decreases |scores| - from
    ensures forall k :: 0 <= k < |w| ==> from <= Ordinal(w[k]) && scores[Ordinal(w[k])] == max
    ensures w == [] <==> forall i :: from <= i < |scores| ==> scores[i] != max
    ensures w != [] ==> forall i :: from <= i < Ordinal(w[0]) ==> scores[i] != max
  {
    if from == |scores| then []
    else if scores[from] == max then [AllColors[from]] + Winners(scores, max, from + 1)
    else Winners(scores, max, from + 1)
  }

  /** The filter drops no colour that has the maximum score. */
  lemma {:induction false} WinnersKeepEveryMaximum(scores: seq<nat>, max: nat, from: nat)
    requires |scores| == |AllColors| && from <= |scores|
    ensures forall i :: from <= i < |scores| && scores[i] == max ==> AllColors[i] in Winners(scores, max, from)
    decreases |scores| - from
  {
    if from < |scores| {
      WinnersKeepEveryMaximum(scores, max, from + 1);
      var rest := Winners(scores, max, from + 1);
      forall i | from <= i < |scores| && scores[i] == max
        ensures AllColors[i] in Winners(scores, max, from)
      {
        if i > from {
          assert AllColors[i] in rest;
        }
      }
    }
  }

  /** Colours listed in strictly increasing declaration order, so each at most once. */
  predicate StrictlyIncreasing(w: seq<EventColor>) {
    forall a, b :: 0 <= a < b < |w| ==> Ordinal(w[a]) < Ordinal(w[b])
  }

  /** A colour that precedes every colour of an increasing list can go in front of it. */
  lemma ConsIncreasing(c: EventColor, rest: seq<EventColor>)
    requires StrictlyIncreasing(rest)
    requires forall k :: 0 <= k < |rest| ==> Ordinal(c) < Ordinal(rest[k])
    ensures StrictlyIncreasing([c] + rest)
  {
    var w := [c] + rest;
    forall a, b | 0 <= a < b < |w| ensures Ordinal(w[a]) < Ordinal(w[b]) {
      assert w[b] == rest[b - 1];
      if a > 0 {
        assert w[a] == rest[a - 1];
      }
    }
  }

  /** The filter keeps the colours in declaration order, each at most once. */
  lemma {:induction false} WinnersInOrder(scores: seq<nat>, max: nat, from: nat)
    requires |scores| == |AllColors| && from <= |scores|
    ensures StrictlyIncreasing(Winners(scores, max, from))
    decreases |scores| - from
  {
    if from < |scores| {
      WinnersInOrder(scores, max, from + 1);
      if scores[from] == max {
        OrdinalOfIndex(from);
        ConsIncreasing(AllColors[from], Winners(scores, max, from + 1));
      }
    }
  }

  /** The `'blue'` default is dead code: some colour always has the maximum score. */
  lemma BlueDefaultUnreachable(scores: seq<nat>)
    requires |scores| == |AllColors|
    ensures Winners(scores, MaxScore(scores), 0) != []
  {
  }

  /** `suggestedColors.length > 0 ? suggestedColors[0] : 'blue'` */
  function PickColor(scores: seq<nat>): (r: EventColor)
    requires |scores| == |AllColors|
    ensures forall i :: 0 <= i < |scores| ==> scores[i] <= scores[Ordinal(r)]
    ensures forall i :: 0 <= i < Ordinal(r) ==> scores[i] < scores[Ordinal(r)]
  {
    var max := MaxScore(scores);
    var suggested := Winners(scores, max, 0);
    BlueDefaultUnreachable(scores);
    if |suggested| > 0 then suggested[0] else Blue
  }

  /**
   * `suggestEventColor(title, description)`: scores are counted in nested
   * loops, then the first colour with the highest score is returned.
   */
  method SuggestEventColor(title: string, description: Option<string>) returns (r: EventColor)
    ensures IsSuggestion(MatchText(title, description), r)
  {
    var text := MatchText(title, description);
    var scores: seq<nat> := [0, 0, 0, 0, 0, 0, 0, 0];
    for ci := 0 to |AllColors|
      invariant |scores| == |AllColors|
      invariant forall j :: 0 <= j < ci ==> scores[j] == Score(text, AllColors[j])
      invariant forall j :: ci <= j < |AllColors| ==> scores[j] == 0
    {
      var color := AllColors[ci];
      var keywords := Keywords(color);
      for ki := 0 to |keywords|
        invariant |scores| == |AllColors|
        invariant forall j :: 0 <= j < ci ==> scores[j] == Score(text, AllColors[j])
        invariant forall j :: ci < j < |AllColors| ==> scores[j] == 0
        invariant scores[ci] == CountHits(text, keywords[..ki])
      {
        CountHitsStep(text, keywords, ki);
        if Contains(text, keywords[ki]) {
          scores := scores[ci := scores[ci] + 1];
        }
      }
      assert keywords[..|keywords|] == keywords;
      assert scores[ci] == Score(text, color);
    }
    r := PickColor(scores);
    PickedIsSuggestion(text, scores, r);
  }

  lemma PickedIsSuggestion(text: string, scores: seq<nat>, r: EventColor)
    requires |scores| == |AllColors|
    requires forall j :: 0 <= j < |AllColors| ==> scores[j] == Score(text, AllColors[j])
    requires forall i :: 0 <= i < |scores| ==> scores[i] <= scores[Ordinal(r)]
    requires forall i :: 0 <= i < Ordinal(r) ==> scores[i] < scores[Ordinal(r)]
    ensures IsSuggestion(text, r)
  {
    forall d ensures Score(text, d) == scores[Ordinal(d)] {
    }
  }

  // ------------------------------------------------------------ properties

  /** The two conditions of a suggestion pick one colour. */
  lemma SuggestionUnique(text: string, c1: EventColor, c2: EventColor)
    requires IsSuggestion(text, c1) && IsSuggestion(text, c2)
    ensures c1 == c2
  {
    assert !(Ordinal(c1) < Ordinal(c2));
    assert !(Ordinal(c2) < Ordinal(c1));
    assert AllColors[Ordinal(c1)] == c1;
  }

  /** A text with no keyword at all is given yellow, not the `'blue'` of the dead default. */
  lemma NoHitsGivesYellow(text: string, c: EventColor)
    requires forall d :: Score(text, d) == 0
    requires IsSuggestion(text, c)
    ensures c == Yellow
  {
    assert Score(text, Yellow) == Score(text, c) == 0;
    assert !(Ordinal(Yellow) < Ordinal(c));
    assert AllColors[Ordinal(c)] == c;
  }

  /** Matching ignores letter case: titles equal up to case get the same text. */
  lemma CaseInsensitive(title1: string, title2: string, description: Option<string>)
    requires Lower(title1) == Lower(title2)
    ensures MatchText(title1, description) == MatchText(title2, description)
  {
    var rest := " " + description.GetOr("");
    assert title1 + " " + description.GetOr("") == title1 + rest;
    assert title2 + " " + description.GetOr("") == title2 + rest;
    LowerConcat(title1, rest);
    LowerConcat(title2, rest);
  }

  lemma LowerConcat(a: string, b: string)
    ensures Lower(a + b) == Lower(a) + Lower(b)
  {
  }

  /** A keyword that occurs in the text adds one to every colour that lists it. */
  lemma {:induction false} HitCounts(text: string, keywords: seq<string>, k: nat)
    requires k < |keywords| && Contains(text, keywords[k])
    ensures CountHits(text, keywords) >= 1
  {
    if k < |keywords| - 1 {
      HitCounts(text, keywords[..|keywords| - 1], k);
    }
  }

  /** Only keywords that occur in the text count. */
  lemma {:induction false} OnlyHitsCount(text: string, keywords: seq<string>, k: string)
    requires Contains(text, k)
    requires forall j :: 0 <= j < |keywords| && Contains(text, keywords[j]) ==> keywords[j] == k
    ensures CountHits(text, keywords) == |MatchingIndices(keywords, k)|
  {
    if keywords != [] {
      var init := keywords[..|keywords| - 1];
      OnlyHitsCount(text, init, k);
      if Contains(text, keywords[|keywords| - 1]) {
        assert keywords[|keywords| - 1] == k;
      }
      MatchingIndicesSnoc(keywords, k);
    }
  }

  /** The positions at which `k` appears in `keywords`. */
  function MatchingIndices(keywords: seq<string>, k: string): set<nat>
  {
    set j: nat | j < |keywords| && keywords[j] == k
  }

  lemma MatchingIndicesSnoc(keywords: seq<string>, k: string)
    requires keywords != []
    ensures var init := keywords[..|keywords| - 1];
      |MatchingIndices(keywords, k)| == |MatchingIndices(init, k)| + (if keywords[|keywords| - 1] == k then 1 else 0)
  {
    var init := keywords[..|keywords| - 1];
    var last := |keywords| - 1;
    var before, after := MatchingIndices(init, k), MatchingIndices(keywords, k);
    assert after - {last} == before by {
      forall j: nat ensures j in after - {last} <==> j in before {
        if j < last {
          assert keywords[j] == init[j];
        }
      }
    }
    assert last !in before;
    if keywords[last] == k {
      assert after == before + {last};
    } else {
      assert after == before;
    }
  }

  /** With `meeting` the only keyword present, orange and blue score 1 and the others 0. */
  lemma MeetingScore(text: string, d: EventColor)
    requires Contains(text, "meeting")
    requires forall e, j :: 0 <= j < |Keywords(e)| && Contains(text, Keywords(e)[j]) ==> Keywords(e)[j] == "meeting"
    ensures Score(text, d) == if d == Orange || d == Blue then 1 else 0
  {
    OnlyHitsCount(text, Keywords(d), "meeting");
    var ks := Keywords(d);
    if d == Orange {
      assert MatchingIndices(ks, "meeting") == {6};
    } else if d == Blue {
      assert MatchingIndices(ks, "meeting") == {3};
    } else {
      assert forall j :: 0 <= j < |ks| ==> ks[j] != "meeting";
      assert MatchingIndices(ks, "meeting") == {};
    }
  }

  /**
   * `'meeting'` is both an orange and a blue keyword: when it is the only
   * keyword in the text, the two tie and orange, declared first, is chosen.
   */
  lemma MeetingGoesToOrange(text: string, c: EventColor)
    requires Contains(text, "meeting")
    requires forall d, j :: 0 <= j < |Keywords(d)| && Contains(text, Keywords(d)[j]) ==> Keywords(d)[j] == "meeting"
    requires IsSuggestion(text, c)
    ensures c == Orange
  {
    MeetingScore(text, Orange);
    MeetingScore(text, Blue);
    MeetingScore(text, c);
    assert Ordinal(c) <= Ordinal(Orange);
  }
}
