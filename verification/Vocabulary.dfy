/**
  Longest-match-first phrase claiming (`nlu/entities.py`). A vocabulary is its entries in declaration order;
  which characters count as word characters is given, and so is nothing else about the regular expressions used:
  a match of a phrase is an occurrence of it between two word boundaries.
 */
module Vocabulary {
  import opened Wrappers
  import Sort = StableSort

  datatype Entry = Entry(phrase: string, canonical: string)

  datatype Match = Match(name: string, position: nat, text: string)

  predicate Boundary(text: string, i: nat, word: char -> bool)
    requires i <= |text|
  {
    (i > 0 && word(text[i - 1])) != (i < |text| && word(text[i]))
  }

  predicate Occurs(text: string, phrase: string, p: nat, word: char -> bool) {
    && p + |phrase| <= |text|
    && text[p..p + |phrase|] == phrase
    && Boundary(text, p, word) && Boundary(text, p + |phrase|, word)
  }

  function Length(phrase: string): nat {
    if phrase == "" then 1 else |phrase|
  }

  /** `re.finditer`: the matches met scanning left to right, resuming after each one. */
  function Matches(text: string, phrase: string, from: nat, word: char -> bool): (r: seq<nat>)
    ensures forall p :: p in r ==> p >= from && Occurs(text, phrase, p, word)
    decreases |text| + 1 - from
  {
    if from + |phrase| > |text| then []
    else if Occurs(text, phrase, from, word) then [from] + Matches(text, phrase, from + Length(phrase), word)
    else Matches(text, phrase, from + 1, word)
  }

  /** The overlap test of the source, on half-open spans. */
  predicate Overlap(p: nat, pLength: nat, q: nat, qLength: nat) {
    p < q + qLength && q < p + pLength
  }

  predicate InSpan(c: nat, p: nat, length: nat) {
    p <= c < p + length
  }

  /** Two spans overlap exactly when they have a character in common. */
  lemma OverlapIsSharing(p: nat, pLength: nat, q: nat, qLength: nat)
    requires pLength > 0 && qLength > 0
    ensures Overlap(p, pLength, q, qLength) <==> exists c: nat :: InSpan(c, p, pLength) && InSpan(c, q, qLength)
  {
    if Overlap(p, pLength, q, qLength) {
      var c := if p <= q then q else p;
      assert InSpan(c, p, pLength) && InSpan(c, q, qLength);
    }
  }

  /**
    Where a phrase occurs: the text spells it, and each of its ends is a word boundary. At an end that is a word
    character no other may adjoin it; at an end that is not, one must.
   */
  lemma OccursIff(text: string, phrase: string, p: nat, word: char -> bool)
    requires phrase != ""
    ensures Occurs(text, phrase, p, word) <==>
              && p + |phrase| <= |text| && text[p..p + |phrase|] == phrase
              && ((p > 0 && word(text[p - 1])) <==> !word(phrase[0]))
              && ((p + |phrase| < |text| && word(text[p + |phrase|])) <==> !word(phrase[|phrase| - 1]))
  {
    if p + |phrase| <= |text| && text[p..p + |phrase|] == phrase {
      assert text[p] == phrase[0] && text[p + |phrase| - 1] == phrase[|phrase| - 1];
    }
  }

  predicate Longer(a: Entry, b: Entry) {
    |a.phrase| >= |b.phrase|
  }

  predicate ByPosition(a: Match, b: Match) {
    a.position <= b.position
  }

  // ----- what a report of a text has to satisfy

  ghost predicate Justified(text: string, vocabulary: seq<Entry>, word: char -> bool, m: Match) {
    Entry(m.text, m.name) in vocabulary && m.position in Matches(text, m.text, 0, word)
  }

  /** Distinct matches are disjoint and carry distinct names. */
  ghost predicate Separate(report: seq<Match>) {
    forall m, n :: m in report && n in report && m != n ==>
      m.name != n.name && !Overlap(m.position, |m.text|, n.position, |n.text|)
  }

  /** A reported span of a phrase at least as long covers part of this occurrence. */
  ghost predicate Blocked(report: seq<Match>, phrase: string, p: nat) {
    exists m :: m in report && |m.text| >= |phrase| && Overlap(p, |phrase|, m.position, |m.text|)
  }

  /** The entry's concept is reported by a phrase at least as long, or every match of the entry is blocked. */
  ghost predicate Settled(text: string, word: char -> bool, report: seq<Match>, e: Entry) {
    || (exists m :: m in report && m.name == e.canonical && |m.text| >= |e.phrase|)
    || (forall p :: p in Matches(text, e.phrase, 0, word) ==> Blocked(report, e.phrase, p))
  }

  /** The span reported is the first match of its phrase that is not blocked. */
  ghost predicate Earliest(text: string, word: char -> bool, report: seq<Match>, m: Match) {
    forall p :: p in Matches(text, m.text, 0, word) && p < m.position ==> Blocked(report, m.text, p)
  }

  ghost predicate IsReport(text: string, vocabulary: seq<Entry>, word: char -> bool, report: seq<Match>) {
    && (forall m :: m in report ==> Justified(text, vocabulary, word, m) && Earliest(text, word, report, m))
    && Sort.NoDuplicates(report)
    && Separate(report)
    && Sort.IsSorted(report, ByPosition)
    && (forall e :: e in vocabulary ==> Settled(text, word, report, e))
  }

  // ----- the search

  predicate Touches(found: seq<Match>, phrase: string, p: nat) {
    exists m :: m in found && Overlap(p, |phrase|, m.position, |m.text|)
  }

  /** In text order, each at least `length` after the one before. */
  predicate Apart(positions: seq<nat>, length: nat) {
    forall i, j :: 0 <= i < j < |positions| ==> positions[i] < positions[j] && positions[i] + length <= positions[j]
  }

  lemma {:induction false} MatchesAreApart(text: string, phrase: string, from: nat, word: char -> bool)
    ensures Apart(Matches(text, phrase, from, word), |phrase|)
    decreases |text| + 1 - from
  {
    if from + |phrase| <= |text| {
      if Occurs(text, phrase, from, word) {
        var rest := Matches(text, phrase, from + Length(phrase), word);
        MatchesAreApart(text, phrase, from + Length(phrase), word);
        var r := [from] + rest;
        forall i, j | 0 <= i < j < |r|
          ensures r[i] < r[j] && r[i] + |phrase| <= r[j]
        {
          assert r[j] == rest[j - 1] && rest[j - 1] in rest;
        }
      } else {
        MatchesAreApart(text, phrase, from + 1, word);
      }
    }
  }

  /** The first of these positions at which the phrase overlaps no claimed span. */
  function FirstFree(found: seq<Match>, phrase: string, matches: seq<nat>): Option<nat> {
    if matches == [] then None
    else if Touches(found, phrase, matches[0]) then FirstFree(found, phrase, matches[1..])
    else Some(matches[0])
  }

  /** One phrase's turn: skipped once its concept is found, otherwise it claims its first free match, if any. */
  function Claim(text: string, word: char -> bool, found: seq<Match>, e: Entry): seq<Match> {
    if exists m :: m in found && m.name == e.canonical then found
    else
      match FirstFree(found, e.phrase, Matches(text, e.phrase, 0, word))
      case None => found
      case Some(position) => found + [Match(e.canonical, position, e.phrase)]
  }

  function ClaimAll(text: string, word: char -> bool, order: seq<Entry>): seq<Match> {
    if order == [] then []
    else Claim(text, word, ClaimAll(text, word, order[..|order| - 1]), order[|order| - 1])
  }

  /** Phrases take their turns longest first, equally long ones in declaration order. */
  function VocabularyMatches(text: string, vocabulary: seq<Entry>, word: char -> bool): seq<Match> {
    Sort.Sorted(ClaimAll(text, word, Sort.Sorted(vocabulary, Longer)), ByPosition)
  }

  method ClaimFirst(text: string, phrase: string, word: char -> bool, found: seq<Match>) returns (r: Option<nat>)
    ensures r == FirstFree(found, phrase, Matches(text, phrase, 0, word))
    ensures r.Some? ==>
              && r.value in Matches(text, phrase, 0, word)
              && forall m :: m in found ==> !Overlap(r.value, |phrase|, m.position, |m.text|)
    ensures forall p :: p in Matches(text, phrase, 0, word) && (r.Some? ==> p < r.value) ==> Touches(found, phrase, p)
  {
    var matches := Matches(text, phrase, 0, word);
    for k := 0 to |matches|
      invariant forall j :: 0 <= j < k ==> Touches(found, phrase, matches[j])
      invariant FirstFree(found, phrase, matches) == FirstFree(found, phrase, matches[k..])
    {
      assert matches[k..][0] == matches[k] && matches[k..][1..] == matches[k + 1..];
      if !Touches(found, phrase, matches[k]) {
        MatchesAreApart(text, phrase, 0, word);
        return Some(matches[k]);
      }
    }
    return None;
  }

  lemma LongerIsPreorder()
    ensures Sort.TotalPreorder(Longer) && Sort.TotalPreorder(ByPosition)
  {
  }

  ghost predicate Progress(text: string, vocabulary: seq<Entry>, word: char -> bool, tried: seq<Entry>,
                           found: seq<Match>)
  {
    && (forall m :: m in found ==>
          Justified(text, vocabulary, word, m) && Entry(m.text, m.name) in tried && Earliest(text, word, found, m))
    && Sort.NoDuplicates(found)
    && Separate(found)
    && (forall e :: e in tried ==> Settled(text, word, found, e))
  }

  lemma SettledGrows(text: string, word: char -> bool, found: seq<Match>, m: Match, e: Entry)
    requires Settled(text, word, found, e)
    ensures Settled(text, word, found + [m], e)
  {
    if !(exists n :: n in found && n.name == e.canonical && |n.text| >= |e.phrase|) {
      forall p | p in Matches(text, e.phrase, 0, word)
        ensures Blocked(found + [m], e.phrase, p)
      {
        var n :| n in found && |n.text| >= |e.phrase| && Overlap(p, |e.phrase|, n.position, |n.text|);
        assert n in found + [m];
      }
    } else {
      var n :| n in found && n.name == e.canonical && |n.text| >= |e.phrase|;
      assert n in found + [m];
    }
  }

  lemma BlockedGrows(found: seq<Match>, report: seq<Match>, phrase: string, p: nat)
    requires Blocked(found, phrase, p) && forall m :: m in found ==> m in report
    ensures Blocked(report, phrase, p)
  {
    var n :| n in found && |n.text| >= |phrase| && Overlap(p, |phrase|, n.position, |n.text|);
    assert n in report;
  }

  lemma ClaimKeepsProgress(text: string, vocabulary: seq<Entry>, word: char -> bool, tried: seq<Entry>,
                           found: seq<Match>, e: Entry, position: nat)
    requires Progress(text, vocabulary, word, tried, found) && e in vocabulary
    requires forall m :: m in found ==> m.name != e.canonical
    requires position in Matches(text, e.phrase, 0, word)
    requires forall m :: m in found ==> !Overlap(position, |e.phrase|, m.position, |m.text|)
    requires forall p :: p in Matches(text, e.phrase, 0, word) && p < position ==> Blocked(found, e.phrase, p)
    ensures Progress(text, vocabulary, word, tried + [e], found + [Match(e.canonical, position, e.phrase)])
  {
    hide Matches, Occurs;
    var m := Match(e.canonical, position, e.phrase);
    assert m in found + [m];
    forall n | n in found + [m]
      ensures Earliest(text, word, found + [m], n)
    {
      forall p | p in Matches(text, n.text, 0, word) && p < n.position
        ensures Blocked(found + [m], n.text, p)
      {
        assert Blocked(found, n.text, p);
        BlockedGrows(found, found + [m], n.text, p);
      }
    }
    forall d | d in tried + [e]
      ensures Settled(text, word, found + [m], d)
    {
      if d in tried {
        SettledGrows(text, word, found, m, d);
      }
    }
  }

  method TryEntry(text: string, ghost vocabulary: seq<Entry>, word: char -> bool, ghost tried: seq<Entry>,
                  found: seq<Match>, e: Entry)
    returns (found': seq<Match>)
    requires Progress(text, vocabulary, word, tried, found) && e in vocabulary
    requires forall m :: m in found ==> |m.text| >= |e.phrase|
    ensures found' == Claim(text, word, found, e)
    ensures Progress(text, vocabulary, word, tried + [e], found')
  {
    hide Matches, Occurs, FirstFree;
    if exists m :: m in found && m.name == e.canonical {
      assert Settled(text, word, found, e);
      return found;
    }
    var claimed := ClaimFirst(text, e.phrase, word, found);
    forall p | Touches(found, e.phrase, p)
      ensures Blocked(found, e.phrase, p)
    {
      var m :| m in found && Overlap(p, |e.phrase|, m.position, |m.text|);
    }
    if claimed.Some? {
      ClaimKeepsProgress(text, vocabulary, word, tried, found, e, claimed.value);
      return found + [Match(e.canonical, claimed.value, e.phrase)];
    }
    assert Settled(text, word, found, e);
    return found;
  }

  method FindVocabularyMatches(text: string, vocabulary: seq<Entry>, word: char -> bool) returns (report: seq<Match>)
    ensures report == VocabularyMatches(text, vocabulary, word)
    ensures IsReport(text, vocabulary, word, report)
  {
    hide Claim, Matches;
    var order := Sort.Sorted(vocabulary, Longer);
    LongerIsPreorder();
    Sort.SortedIsSorted(vocabulary, Longer);
    Sort.SortedMembers(vocabulary, Longer);
    var found: seq<Match> := [];
    for i := 0 to |order|
      invariant found == ClaimAll(text, word, order[..i])
      invariant Progress(text, vocabulary, word, order[..i], found)
    {
      forall m | m in found
        ensures |m.text| >= |order[i].phrase|
      {
        var k :| 0 <= k < i && order[..i][k] == Entry(m.text, m.name);
        assert Longer(order[k], order[i]);
      }
      found := TryEntry(text, vocabulary, word, order[..i], found, order[i]);
      assert order[..i + 1] == order[..i] + [order[i]] && order[..i + 1][..i] == order[..i];
    }
    assert order[..|order|] == order;
    report := Sort.Sorted(found, ByPosition);
    ReportIsSorted(text, vocabulary, word, order, found);
  }

  lemma ReportIsSorted(text: string, vocabulary: seq<Entry>, word: char -> bool, order: seq<Entry>, found: seq<Match>)
    requires Progress(text, vocabulary, word, order, found)
    requires forall e :: e in vocabulary ==> e in order
    ensures IsReport(text, vocabulary, word, Sort.Sorted(found, ByPosition))
  {
    hide Matches, Sort.Sorted;
    var report := Sort.Sorted(found, ByPosition);
    LongerIsPreorder();
    Sort.SortedIsSorted(found, ByPosition);
    Sort.SortedPermutes(found, ByPosition);
    Sort.PermutationMembers(found, report);
    Sort.PermutationKeepsNoDuplicates(found, report);
    forall m | m in report
      ensures Earliest(text, word, report, m)
    {
      forall p | p in Matches(text, m.text, 0, word) && p < m.position
        ensures Blocked(report, m.text, p)
      {
        assert Earliest(text, word, found, m);
        BlockedGrows(found, report, m.text, p);
      }
    }
    forall e | e in vocabulary
      ensures Settled(text, word, report, e)
    {
      SettledByContents(text, word, found, report, e);
    }
  }

  lemma SettledByContents(text: string, word: char -> bool, found: seq<Match>, report: seq<Match>, e: Entry)
    requires Settled(text, word, found, e) && forall m :: m in found ==> m in report
    ensures Settled(text, word, report, e)
  {
    if !(exists m :: m in found && m.name == e.canonical && |m.text| >= |e.phrase|) {
      forall p | p in Matches(text, e.phrase, 0, word)
        ensures Blocked(report, e.phrase, p)
      {
        var n :| n in found && |n.text| >= |e.phrase| && Overlap(p, |e.phrase|, n.position, |n.text|);
        assert n in report;
      }
    }
  }

  // ----- maximality over every occurrence

  /** Where a suffix of the phrase is also a prefix of it, no word boundary lets a second copy start there. */
  predicate NoSelfOverlap(phrase: string, word: char -> bool) {
    forall d :: 0 < d < |phrase| && phrase[d..] == phrase[..|phrase| - d] ==> word(phrase[d - 1]) == word(phrase[d])
  }

  /** Two overlapping copies of a phrase give it a border, which shows in the text where the second one starts. */
  lemma OverlapGivesBorder(text: string, phrase: string, p: nat, q: nat)
    requires p < q < p + |phrase| && q + |phrase| <= |text|
    requires text[p..p + |phrase|] == phrase && text[q..q + |phrase|] == phrase
    ensures phrase[q - p..] == phrase[..|phrase| - (q - p)]
    ensures phrase[q - p - 1] == text[q - 1] && phrase[q - p] == text[q]
  {
    assert text[p..p + |phrase|][q - p - 1] == text[q - 1] && text[p..p + |phrase|][q - p] == text[q];
    assert text[p..p + |phrase|][q - p..] == text[q..p + |phrase|];
    assert text[q..q + |phrase|][..|phrase| - (q - p)] == text[q..p + |phrase|];
  }

  lemma OccurrencesAreApart(text: string, phrase: string, p: nat, q: nat, word: char -> bool)
    requires NoSelfOverlap(phrase, word) && p < q
    requires Occurs(text, phrase, p, word) && Occurs(text, phrase, q, word)
    ensures p + |phrase| <= q
  {
    if q < p + |phrase| {
      OverlapGivesBorder(text, phrase, p, q);
    }
  }

  /** Where the scan goes on after looking at `from`. */
  function Resume(text: string, phrase: string, from: nat, word: char -> bool): nat {
    from + if Occurs(text, phrase, from, word) then Length(phrase) else 1
  }

  lemma MatchesFrom(text: string, phrase: string, from: nat, word: char -> bool)
    requires from + |phrase| <= |text|
    ensures Occurs(text, phrase, from, word) ==> from in Matches(text, phrase, from, word)
    ensures forall q :: q in Matches(text, phrase, Resume(text, phrase, from, word), word) ==>
              q in Matches(text, phrase, from, word)
  {
  }

  /** Every occurrence is a match, or starts inside an earlier match of the same phrase. */
  lemma {:induction false} MatchOrInsideMatch(text: string, phrase: string, from: nat, p: nat, word: char -> bool)
    returns (q: nat)
    requires from <= p && Occurs(text, phrase, p, word)
    ensures q in Matches(text, phrase, from, word)
    ensures q == p || q < p < q + |phrase|
    decreases p - from
  {
    MatchesFrom(text, phrase, from, word);
    hide Matches, Occurs;
    if from == p || (Occurs(text, phrase, from, word) && p < from + |phrase|) {
      q := from;
    } else {
      q := MatchOrInsideMatch(text, phrase, Resume(text, phrase, from, word), p, word);
    }
  }

  lemma EveryOccurrenceIsMatched(text: string, phrase: string, p: nat, word: char -> bool)
    requires NoSelfOverlap(phrase, word) && Occurs(text, phrase, p, word)
    ensures p in Matches(text, phrase, 0, word)
  {
    var q := MatchOrInsideMatch(text, phrase, 0, p, word);
    if q < p {
      OccurrencesAreApart(text, phrase, q, p, word);
    }
  }

  /**
    Every occurrence of a phrase whose concept is not reported runs into a reported phrase at least as long;
    if the phrase can overlap itself, an earlier occurrence that this one overlaps may do so in its place.
   */
  lemma ReportIsMaximal(text: string, vocabulary: seq<Entry>, word: char -> bool, report: seq<Match>, e: Entry, p: nat)
    requires IsReport(text, vocabulary, word, report)
    requires e in vocabulary && Occurs(text, e.phrase, p, word)
    requires forall m :: m in report ==> m.name != e.canonical
    ensures NoSelfOverlap(e.phrase, word) ==> Blocked(report, e.phrase, p)
    ensures exists q: nat ::
              (q == p || q < p < q + |e.phrase|) && Occurs(text, e.phrase, q, word) && Blocked(report, e.phrase, q)
  {
    assert Settled(text, word, report, e);
    if NoSelfOverlap(e.phrase, word) {
      EveryOccurrenceIsMatched(text, e.phrase, p, word);
    }
    var q := MatchOrInsideMatch(text, e.phrase, 0, p, word);
    assert Occurs(text, e.phrase, q, word) && Blocked(report, e.phrase, q);
  }

  // ----- when the span reported is the earliest mention of its concept

  /** A match of the concept that no reported phrase at least as long as it covers. */
  ghost predicate FreeMention(text: string, word: char -> bool, report: seq<Match>, e: Entry, p: nat) {
    p in Matches(text, e.phrase, 0, word) && !Blocked(report, e.phrase, p)
  }

  ghost predicate PlacedFirst(text: string, vocabulary: seq<Entry>, word: char -> bool, report: seq<Match>, m: Match) {
    forall e, p: nat ::
      e in vocabulary && e.canonical == m.name && FreeMention(text, word, report, e, p) ==> m.position <= p
  }

  /** Phrases that are not tried any more once the concept has been reported by `m`. */
  predicate PassedOver(m: Match, e: Entry) {
    e.canonical == m.name && |e.phrase| <= |m.text| && e.phrase != m.text
  }

  /** Longer phrases of a reported concept are mentioned nowhere freely, and its own phrase nowhere earlier. */
  lemma FreeMentionIsPassedOver(text: string, vocabulary: seq<Entry>, word: char -> bool, report: seq<Match>, m: Match,
                                e: Entry, p: nat)
    requires IsReport(text, vocabulary, word, report) && m in report
    requires e in vocabulary && e.canonical == m.name && FreeMention(text, word, report, e, p) && p < m.position
    ensures PassedOver(m, e)
  {
    assert Settled(text, word, report, e) && Earliest(text, word, report, m);
    var n :| n in report && n.name == e.canonical && |n.text| >= |e.phrase|;
    assert n == m;
  }

  /** A concept is reported at its earliest free mention if and only if no passed-over phrase is mentioned before it. */
  lemma PlacedFirstIff(text: string, vocabulary: seq<Entry>, word: char -> bool, report: seq<Match>, m: Match)
    requires IsReport(text, vocabulary, word, report) && m in report
    ensures PlacedFirst(text, vocabulary, word, report, m) <==>
              forall e, p: nat ::
                e in vocabulary && PassedOver(m, e) && FreeMention(text, word, report, e, p) ==> m.position <= p
  {
    forall e, p: nat |
      e in vocabulary && e.canonical == m.name && FreeMention(text, word, report, e, p) && p < m.position
      ensures PassedOver(m, e)
    {
      FreeMentionIsPassedOver(text, vocabulary, word, report, m, e, p);
    }
  }

  /** A concept of which the text contains one phrase only is reported at the first free mention of it. */
  lemma OnlyPhraseIsPlacedFirst(text: string, vocabulary: seq<Entry>, word: char -> bool, report: seq<Match>, m: Match)
    requires IsReport(text, vocabulary, word, report) && m in report
    requires forall e, f ::
               (e in vocabulary && f in vocabulary && e.canonical == m.name && f.canonical == m.name
                && Matches(text, e.phrase, 0, word) != [] && Matches(text, f.phrase, 0, word) != [])
               ==> e.phrase == f.phrase
    ensures PlacedFirst(text, vocabulary, word, report, m)
  {
    PlacedFirstIff(text, vocabulary, word, report, m);
    assert Entry(m.text, m.name) in vocabulary && Matches(text, m.text, 0, word) != [];
  }

  /** No match of the concept's phrases overlaps a match of another concept's. */
  ghost predicate Uncontested(text: string, vocabulary: seq<Entry>, word: char -> bool, name: string) {
    forall e, f, p, q ::
      (e in vocabulary && f in vocabulary && e.canonical == name && f.canonical != name
       && p in Matches(text, e.phrase, 0, word) && q in Matches(text, f.phrase, 0, word))
      ==> !Overlap(p, |e.phrase|, q, |f.phrase|)
  }

  /** Of the concept's phrases that the text contains, none is longer. */
  ghost predicate LongestPresent(text: string, vocabulary: seq<Entry>, word: char -> bool, f: Entry) {
    && f in vocabulary && Matches(text, f.phrase, 0, word) != []
    && forall e :: e in vocabulary && e.canonical == f.canonical && Matches(text, e.phrase, 0, word) != [] ==>
         |e.phrase| <= |f.phrase|
  }

  /** No phrase of the concept matches before `position`. */
  ghost predicate EarliestOf(text: string, vocabulary: seq<Entry>, word: char -> bool, name: string, position: nat) {
    forall e, p :: e in vocabulary && e.canonical == name && p in Matches(text, e.phrase, 0, word) ==> position <= p
  }

  /** No other phrase of the concept, as long or shorter, matches before `position`. */
  ghost predicate NoOtherBefore(text: string, vocabulary: seq<Entry>, word: char -> bool, f: Entry, position: nat) {
    forall e, p ::
      (e in vocabulary && e.canonical == f.canonical && e.phrase != f.phrase && |e.phrase| <= |f.phrase|
       && p in Matches(text, e.phrase, 0, word))
      ==> position <= p
  }

  lemma UncontestedBlocker(text: string, vocabulary: seq<Entry>, word: char -> bool, report: seq<Match>, e: Entry,
                           p: nat)
    returns (m: Match)
    requires IsReport(text, vocabulary, word, report)
    requires e in vocabulary && Uncontested(text, vocabulary, word, e.canonical)
    requires p in Matches(text, e.phrase, 0, word) && Blocked(report, e.phrase, p)
    ensures m in report && m.name == e.canonical && |m.text| >= |e.phrase|
    ensures Overlap(p, |e.phrase|, m.position, |m.text|)
  {
    m :| m in report && |m.text| >= |e.phrase| && Overlap(p, |e.phrase|, m.position, |m.text|);
    assert Justified(text, vocabulary, word, m);
    assert Entry(m.text, m.name).canonical == e.canonical;
  }

  lemma PresentIsReported(text: string, vocabulary: seq<Entry>, word: char -> bool, report: seq<Match>, e: Entry)
    returns (m: Match)
    requires IsReport(text, vocabulary, word, report)
    requires e in vocabulary && Uncontested(text, vocabulary, word, e.canonical)
    requires Matches(text, e.phrase, 0, word) != []
    ensures m in report && m.name == e.canonical && |m.text| >= |e.phrase|
  {
    assert Settled(text, word, report, e);
    var p := Matches(text, e.phrase, 0, word)[0];
    if Blocked(report, e.phrase, p) {
      m := UncontestedBlocker(text, vocabulary, word, report, e, p);
    } else {
      m :| m in report && m.name == e.canonical && |m.text| >= |e.phrase|;
    }
  }

  lemma ReportedIsLongest(text: string, vocabulary: seq<Entry>, word: char -> bool, report: seq<Match>, m: Match)
    requires IsReport(text, vocabulary, word, report) && m in report
    requires Uncontested(text, vocabulary, word, m.name)
    ensures LongestPresent(text, vocabulary, word, Entry(m.text, m.name))
  {
    hide Uncontested, Matches, Settled;
    assert Justified(text, vocabulary, word, m);
    forall e | e in vocabulary && e.canonical == m.name && Matches(text, e.phrase, 0, word) != []
      ensures |e.phrase| <= |m.text|
    {
      var n := PresentIsReported(text, vocabulary, word, report, e);
      assert n == m;
    }
  }

  lemma ReportedIsFirstMatch(text: string, vocabulary: seq<Entry>, word: char -> bool, report: seq<Match>, m: Match)
    requires IsReport(text, vocabulary, word, report) && m in report
    requires Uncontested(text, vocabulary, word, m.name)
    ensures Matches(text, m.text, 0, word) != [] && m.position == Matches(text, m.text, 0, word)[0]
  {
    hide Uncontested, Matches, Settled;
    assert Justified(text, vocabulary, word, m) && Earliest(text, word, report, m);
    var first := Matches(text, m.text, 0, word)[0];
    MatchesAreApart(text, m.text, 0, word);
    if first < m.position {
      var _ := UncontestedBlocker(text, vocabulary, word, report, Entry(m.text, m.name), first);
    }
  }

  /**
    What can be told from the text alone. Where nothing else competes for its words, a concept that is mentioned is
    reported at the first match of a longest phrase present, which is its earliest match if and only if no other
    phrase of it matches before.
   */
  lemma EarliestMatchIff(text: string, vocabulary: seq<Entry>, word: char -> bool, report: seq<Match>, e: Entry)
    returns (f: Entry)
    requires IsReport(text, vocabulary, word, report)
    requires e in vocabulary && Uncontested(text, vocabulary, word, e.canonical)
    requires Matches(text, e.phrase, 0, word) != []
    ensures f.canonical == e.canonical && LongestPresent(text, vocabulary, word, f)
    ensures Match(f.canonical, Matches(text, f.phrase, 0, word)[0], f.phrase) in report
    ensures EarliestOf(text, vocabulary, word, f.canonical, Matches(text, f.phrase, 0, word)[0]) <==>
            NoOtherBefore(text, vocabulary, word, f, Matches(text, f.phrase, 0, word)[0])
  {
    var m := PresentIsReported(text, vocabulary, word, report, e);
    ReportedIsLongest(text, vocabulary, word, report, m);
    ReportedIsFirstMatch(text, vocabulary, word, report, m);
    f := Entry(m.text, m.name);
    FirstUnlessOtherBefore(text, vocabulary, word, f);
    hide *;
  }

  lemma FirstUnlessOtherBefore(text: string, vocabulary: seq<Entry>, word: char -> bool, f: Entry)
    requires LongestPresent(text, vocabulary, word, f)
    ensures EarliestOf(text, vocabulary, word, f.canonical, Matches(text, f.phrase, 0, word)[0]) <==>
            NoOtherBefore(text, vocabulary, word, f, Matches(text, f.phrase, 0, word)[0])
  {
    MatchesAreApart(text, f.phrase, 0, word);
    hide Matches;
    var first := Matches(text, f.phrase, 0, word)[0];
    if NoOtherBefore(text, vocabulary, word, f, first) {
      forall e, p | e in vocabulary && e.canonical == f.canonical && p in Matches(text, e.phrase, 0, word)
        ensures first <= p
      {
        assert |e.phrase| <= |f.phrase|;
      }
    }
  }

  /** Reported spans are disjoint stretches of the text, in text order, each for its own concept. */
  lemma ReportedSpansAreOrdered(text: string, vocabulary: seq<Entry>, word: char -> bool, report: seq<Match>,
                                i: nat, j: nat)
    requires IsReport(text, vocabulary, word, report)
    requires i < j < |report| && report[i].text != "" && report[j].text != ""
    ensures report[i].position + |report[i].text| <= report[j].position
    ensures report[j].position + |report[j].text| <= |text|
    ensures report[i].name != report[j].name
  {
    assert report[i] in report && report[j] in report && report[i] != report[j];
    assert ByPosition(report[i], report[j]);
  }

  // ----- the name reported is not always the first mention of its concept

  const VOCABULARY: seq<Entry> := [Entry("buyers", "customer"), Entry("buyer", "customer")]

  predicate IsLetter(c: char) {
    'a' <= c <= 'z'
  }

  const TEXT: string := "buyer and buyers"

  lemma WhereBuyersOccurs(p: nat)
    ensures Occurs(TEXT, "buyers", p, IsLetter) <==> p == 10
  {
    if Occurs(TEXT, "buyers", p, IsLetter) {
      assert TEXT[p..p + 6][0] == TEXT[p] == 'b' && TEXT[p..p + 6][5] == TEXT[p + 5] == 's';
    }
    assert TEXT[10..16] == "buyers";
  }

  lemma FirstMention()
    ensures Occurs(TEXT, "buyer", 0, IsLetter)
  {
    assert TEXT[0..5] == "buyer";
  }

  lemma BuyersHasNoSelfOverlap()
    ensures NoSelfOverlap("buyers", IsLetter)
  {
    var phrase := "buyers";
    forall d | 0 < d < 6
      ensures phrase[d..] != phrase[..6 - d]
    {
      assert phrase[d..][0] == phrase[d] != 'b' && phrase[..6 - d][0] == 'b';
    }
  }

  /** In this text the concept is first mentioned at 0, by the shorter phrase, but every report places it at 10. */
  lemma ReportCanMissTheFirstMention(report: seq<Match>)
    requires IsReport(TEXT, VOCABULARY, IsLetter, report)
    ensures Occurs(TEXT, "buyer", 0, IsLetter)
    ensures report == [Match("customer", 10, "buyers")]
  {
    WhereBuyersOccurs(10);
    FirstMention();
    BuyersHasNoSelfOverlap();
    hide Occurs, Matches, NoSelfOverlap;
    EveryOccurrenceIsMatched(TEXT, "buyers", 10, IsLetter);
    var e := VOCABULARY[0];
    assert e in VOCABULARY && Settled(TEXT, IsLetter, report, e);
    var m :| m in report && |m.text| >= 6;
    assert Justified(TEXT, VOCABULARY, IsLetter, m);
    assert Entry(m.text, m.name) == e;
    WhereBuyersOccurs(m.position);
    forall n | n in report
      ensures n.name == "customer"
    {
      AllNamed(report, n);
    }
    OnlyOneName(report, m);
  }

  lemma AllNamed(report: seq<Match>, n: Match)
    requires IsReport(TEXT, VOCABULARY, IsLetter, report) && n in report
    ensures n.name == "customer"
  {
    assert Justified(TEXT, VOCABULARY, IsLetter, n);
  }

  lemma OnlyOneName(report: seq<Match>, m: Match)
    requires Sort.NoDuplicates(report) && Separate(report) && m in report
    requires forall n :: n in report ==> n.name == m.name
    ensures report == [m]
  {
    assert |report| >= 2 ==> report[0] != report[1];
    assert forall i :: 0 <= i < |report| ==> report[i] in report;
  }
}
