/** Fuzzy attribution: token sets, scores, and the decision whom a subject's credits count towards. */
module SubjectMatching {
  import opened Options
  import opened Text

  const AUTO_MATCH_THRESHOLD := 0.85
  const DISPUTE_THRESHOLD := 0.60
  const AMBIGUITY_MARGIN := 0.05
  const MAX_SUGGESTIONS := 5

  const PREFIX_TOKENS: set<string> := {"cx", "svc", "srv"}

  datatype Method = Pinned | Exact | FuzzyAuto | Disputed | Unmatched

  datatype Candidate = Candidate(userId: string, name: string, score: real)

  datatype UserProfile = UserProfile(userId: string, name: string, tokens: set<string>)

  datatype MatchOutcome = MatchOutcome(how: Method, userId: Option<string>, candidates: seq<Candidate>, isBot: bool) {
    /** The user the credits count towards, if any. */
    function CountedUserId(): Option<string> {
      if how == Pinned || how == Exact || how == FuzzyAuto then userId else None
    }
  }

  // ------------------------------------------------------------------- automation

  const BOT_NAMES: set<string> := {
    "dependabot", "dependabot[bot]", "renovate", "renovate[bot]", "github-actions", "github-actions[bot]",
    "snyk-bot", "codecov", "codecov[bot]", "mergify", "mergify[bot]", "greenkeeper"
  }

  predicate HasInfix(s: string, infix: string) {
    infix <= s || (s != [] && HasInfix(s[1..], infix))
  }

  /** Matched on the whole handle or the local part of an address, or marked as a bot. */
  predicate IsBotName(value: string) {
    var low := Normal(value);
    HasInfix(low, "[bot]") || low in BOT_NAMES || BeforeAt(low) in BOT_NAMES
  }

  predicate IsBotSubject(values: seq<string>) {
    exists v :: v in values && v != "" && IsBotName(v)
  }

  // ---------------------------------------------------------------------- tokens

  /** The text that is split: the local part of an address, the whole of anything else. */
  function SplitSource(value: string): string {
    var text := Normal(value);
    if Occurrences(text, '@') == 1 && ' ' !in text then BeforeAt(text) else text
  }

  function BeforeAt(s: string): string {
    if s == [] || s[0] == '@' then [] else [s[0]] + BeforeAt(s[1..])
  }

  /** Tokens are the maximal alphanumeric runs, in order: `open` is the run the text continues. */
  function Runs(open: string, text: string): seq<string>
    decreases |text|
  {
    if text == [] then if open == [] then [] else [open]
    else if IsAlnum(text[0]) then Runs(open + [text[0]], text[1..])
    else (if open == [] then [] else [open]) + Runs([], text[1..])
  }

  /** The splitting loop: a token buffer flushed at every separator. */
  method SplitTokens(value: string) returns (tokens: seq<string>)
    ensures tokens == Runs([], SplitSource(value))
    ensures forall k :: 0 <= k < |tokens| ==> MaximalIn(tokens[k], SplitSource(value))
  {
    var text := SplitSource(value);
    var token := "";
    tokens := [];
    var i := 0;
    assert text[0..] == text;
    while i < |text|
      invariant 0 <= i <= |text|
      invariant tokens + Runs(token, text[i..]) == Runs([], text)
    {
      assert text[i..][0] == text[i] && text[i..][1..] == text[i + 1..];
      if IsAlnum(text[i]) {
        token := token + [text[i]];
      } else if token != "" {
        assert tokens + ([token] + Runs([], text[i + 1..])) == (tokens + [token]) + Runs([], text[i + 1..]);
        tokens := tokens + [token];
        token := "";
      } else {
        assert [] + Runs([], text[i + 1..]) == Runs([], text[i + 1..]);
      }
      i := i + 1;
    }
    if token != "" {
      tokens := tokens + [token];
    }
    forall k | 0 <= k < |tokens| ensures MaximalIn(tokens[k], text) {
      assert text[0..0] == [] && text[0..] == text;
      RunsAreMaximal(text, 0, 0, k);
    }
  }

  function Joined(tokens: seq<string>): string {
    if tokens == [] then [] else tokens[0] + Joined(tokens[1..])
  }

  function AlnumOnly(s: string): string {
    if s == [] then [] else (if IsAlnum(s[0]) then [s[0]] else []) + AlnumOnly(s[1..])
  }

  predicate AllAlnum(s: string) {
    forall c :: c in s ==> IsAlnum(c)
  }

  /** Splitting loses separators only: tokens are non-empty, alphanumeric, and spell the rest in order. */
  lemma {:induction false} RunsKeepEveryCharacter(open: string, text: string)
    requires AllAlnum(open)
    ensures Joined(Runs(open, text)) == open + AlnumOnly(text)
    ensures forall t :: t in Runs(open, text) ==> t != [] && AllAlnum(t)
    decreases |text|
  {
    if text != [] {
      if IsAlnum(text[0]) {
        RunsKeepEveryCharacter(open + [text[0]], text[1..]);
        assert open + [text[0]] + AlnumOnly(text[1..]) == open + AlnumOnly(text);
      } else {
        RunsKeepEveryCharacter([], text[1..]);
        var rest := Runs([], text[1..]);
        if open != [] {
          assert ([open] + rest)[1..] == rest;
        } else {
          assert [] + rest == rest;
        }
        assert [] + AlnumOnly(text[1..]) == AlnumOnly(text);
      }
    }
  }

  /** The stretch from `i` to `j` is alphanumeric and cannot be extended to either side. */
  predicate MaximalAt(text: string, i: nat, j: nat) {
    && i < j <= |text| && AllAlnum(text[i..j])
    && (i == 0 || !IsAlnum(text[i - 1])) && (j == |text| || !IsAlnum(text[j]))
  }

  ghost predicate MaximalIn(token: string, text: string) {
    exists i: nat, j: nat :: MaximalAt(text, i, j) && token == text[i..j]
  }

  /** Tokens are never cut short nor joined: each is a maximal stretch of the text. */
  lemma {:induction false} RunsAreMaximal(text: string, start: nat, i: nat, k: nat)
    requires start <= i <= |text| && AllAlnum(text[start..i]) && (start == 0 || !IsAlnum(text[start - 1]))
    requires k < |Runs(text[start..i], text[i..])|
    ensures MaximalIn(Runs(text[start..i], text[i..])[k], text)
    decreases |text| - i
  {
    if i == |text| {
      assert text[i..] == [] && MaximalAt(text, start, i);
    } else {
      RunsStep(text, start, i);
      if IsAlnum(text[i]) {
        RunsAreMaximal(text, start, i + 1, k);
      } else if start < i && k == 0 {
        assert MaximalAt(text, start, i);
      } else {
        RunsAreMaximal(text, i + 1, i + 1, if start < i then k - 1 else k);
      }
    }
  }

  /** One character further: it extends the open stretch, or ends it. */
  lemma RunsStep(text: string, start: nat, i: nat)
    requires start <= i < |text|
    ensures text[i + 1..i + 1] == []
    ensures IsAlnum(text[i]) ==> Runs(text[start..i], text[i..]) == Runs(text[start..i + 1], text[i + 1..])
    ensures IsAlnum(text[i]) && AllAlnum(text[start..i]) ==> AllAlnum(text[start..i + 1])
    ensures !IsAlnum(text[i]) ==>
              Runs(text[start..i], text[i..]) ==
              (if start == i then [] else [text[start..i]]) + Runs(text[i + 1..i + 1], text[i + 1..])
  {
    assert text[i..] == [text[i]] + text[i + 1..];
    assert text[start..i] + [text[i]] == text[start..i + 1];
    assert text[i + 1..i + 1] == [];
  }

  function TokensOf(value: string): set<string> {
    var parts := Runs([], SplitSource(value));
    var kept := if parts != [] && parts[0] in PREFIX_TOKENS then parts[1..] else parts;
    set p | p in kept && |p| >= 2
  }

  /** The tokens of every identity string a subject or user carries. */
  function Tokens(values: seq<string>): set<string> {
    if values == [] then {} else TokensOf(values[0]) + Tokens(values[1..])
  }

  /** Single characters are noise. */
  method LongParts(parts: seq<string>) returns (kept: set<string>)
    ensures kept == set p | p in parts && |p| >= 2
  {
    kept := {};
    var j := 0;
    while j < |parts|
      invariant 0 <= j <= |parts|
      invariant kept == set p | p in parts[..j] && |p| >= 2
    {
      assert parts[..j + 1] == parts[..j] + [parts[j]];
      if |parts[j]| >= 2 {
        kept := kept + {parts[j]};
      }
      j := j + 1;
    }
    assert parts[..j] == parts;
  }

  /** The collecting loop over identity strings, empty ones skipped. */
  method Tokenize(values: seq<string>) returns (collected: set<string>)
    ensures collected == Tokens(values)
  {
    collected := {};
    var i := 0;
    assert values[0..] == values;
    while i < |values|
      invariant 0 <= i <= |values|
      invariant collected + Tokens(values[i..]) == Tokens(values)
    {
      assert values[i..][0] == values[i] && values[i..][1..] == values[i + 1..];
      if values[i] != "" {
        var parts := SplitTokens(values[i]);
        if parts != [] && parts[0] in PREFIX_TOKENS {
          parts := parts[1..];
        }
        var kept := LongParts(parts);
        collected := collected + kept;
      } else {
        assert TokensOf("") == {};
      }
      i := i + 1;
    }
  }

  // ----------------------------------------------------------------------- scores

  /** The character-level ratio of two token sets, a library function. */
  type Ratio = (set<string>, set<string>) -> real

  ghost predicate UnitRatio(ratio: Ratio) {
    forall a, b :: 0.0 <= ratio(a, b) <= 1.0
  }

  function TokenScore(a: set<string>, b: set<string>): real
    requires a != {} && b != {}
  {
    var inter := a * b;
    if inter == {} then 0.0
    else
      var smaller := if |a| <= |b| then |a| else |b|;
      assert a + b != {} by { assert a <= a + b; }
      0.6 * (|inter| as real / smaller as real) + 0.4 * (|inter| as real / |a + b| as real)
  }

  function Similarity(a: set<string>, b: set<string>, ratio: Ratio): real {
    if a == {} || b == {} then 0.0
    else if a == b then 1.0
    else
      var t := TokenScore(a, b);
      if t >= ratio(a, b) then t else ratio(a, b)
  }

  lemma SimilarityIsAUnitScore(a: set<string>, b: set<string>, ratio: Ratio)
    requires UnitRatio(ratio)
    ensures 0.0 <= Similarity(a, b, ratio) <= 1.0
  {
    if a != {} && b != {} {
      var inter := a * b;
      SubsetSize(inter, a);
      SubsetSize(inter, b);
      SubsetSize(a, a + b);
      if inter != {} {
        var smaller := if |a| <= |b| then |a| else |b|;
        PartOfWhole(|inter|, smaller);
        PartOfWhole(|inter|, |a + b|);
      }
    }
  }

  lemma {:induction false} SubsetSize(a: set<string>, b: set<string>)
    requires a <= b
    ensures |a| <= |b|
    decreases |a|
  {
    if a != {} {
      var x :| x in a;
      SubsetSize(a - {x}, b - {x});
    }
  }

  lemma PartOfWhole(part: nat, whole: nat)
    requires 0 < part <= whole
    ensures 0.0 < part as real / whole as real <= 1.0
  {
  }

  // ---------------------------------------------------------------------- ranking

  function Scored(subject: set<string>, profiles: seq<UserProfile>, ratio: Ratio): seq<Candidate> {
    if profiles == [] then []
    else
      var p := profiles[0];
      [Candidate(p.userId, p.name, Similarity(subject, p.tokens, ratio))] + Scored(subject, profiles[1..], ratio)
  }

  function Plausible(cs: seq<Candidate>): seq<Candidate> {
    if cs == [] then []
    else (if cs[0].score >= DISPUTE_THRESHOLD then [cs[0]] else []) + Plausible(cs[1..])
  }

  /** Best score first, then name. */
  predicate Outranks(a: Candidate, b: Candidate) {
    a.score > b.score || (a.score == b.score && Precedes(a.name, b.name))
  }

  function Place(c: Candidate, ranked: seq<Candidate>): seq<Candidate> {
    if ranked == [] || !Outranks(ranked[0], c) then [c] + ranked else [ranked[0]] + Place(c, ranked[1..])
  }

  /** A stable sort by rank. */
  function Ranked(cs: seq<Candidate>): seq<Candidate> {
    if cs == [] then [] else Place(cs[0], Ranked(cs[1..]))
  }

  function RankCandidates(subject: set<string>, profiles: seq<UserProfile>, ratio: Ratio): seq<Candidate> {
    var ranked := Ranked(Plausible(Scored(subject, profiles, ratio)));
    if |ranked| <= MAX_SUGGESTIONS then ranked else ranked[..MAX_SUGGESTIONS]
  }

  /** The decision for a subject that is neither pinned nor matched exactly. */
  function Classify(isBot: bool, subject: set<string>, profiles: seq<UserProfile>, ratio: Ratio): MatchOutcome {
    if isBot then MatchOutcome(Unmatched, None, [], true)
    else if subject == {} then MatchOutcome(Unmatched, None, [], false)
    else
      var candidates := RankCandidates(subject, profiles, ratio);
      if candidates == [] then MatchOutcome(Unmatched, None, [], false)
      else if candidates[0].score < AUTO_MATCH_THRESHOLD then MatchOutcome(Disputed, None, candidates, false)
      else if |candidates| > 1 && candidates[0].score - candidates[1].score < AMBIGUITY_MARGIN
      then MatchOutcome(Disputed, None, candidates, false)
      else MatchOutcome(FuzzyAuto, Some(candidates[0].userId), candidates, false)
  }

  // ------------------------------------------------------------------------- laws

  predicate Descending(cs: seq<Candidate>) {
    forall i, j :: 0 <= i < j < |cs| ==> cs[i].score >= cs[j].score
  }

  lemma HeadDominates(c: Candidate, ranked: seq<Candidate>, rest: seq<Candidate>)
    requires ranked != [] && Descending(ranked) && Outranks(ranked[0], c)
    requires multiset(rest) == multiset(ranked[1..]) + multiset{c}
    ensures forall j :: 0 <= j < |rest| ==> ranked[0].score >= rest[j].score
  {
    forall j | 0 <= j < |rest| ensures ranked[0].score >= rest[j].score {
      assert rest[j] in multiset(rest);
      assert rest[j] == c || rest[j] in ranked[1..];
    }
  }

  lemma {:induction false} PlaceRanks(c: Candidate, ranked: seq<Candidate>)
    requires Descending(ranked)
    ensures Descending(Place(c, ranked)) && multiset(Place(c, ranked)) == multiset(ranked) + multiset{c}
    decreases |ranked|
  {
    PlaceKeeps(c, ranked);
    if ranked != [] && Outranks(ranked[0], c) {
      PlaceRanks(c, ranked[1..]);
      HeadDominates(c, ranked, Place(c, ranked[1..]));
    }
  }

  lemma {:induction false} PlaceKeeps(c: Candidate, ranked: seq<Candidate>)
    ensures multiset(Place(c, ranked)) == multiset(ranked) + multiset{c}
    decreases |ranked|
  {
    if ranked != [] {
      assert ranked == [ranked[0]] + ranked[1..];
      if Outranks(ranked[0], c) {
        PlaceKeeps(c, ranked[1..]);
      }
    }
  }

  lemma {:induction false} RankedSorts(cs: seq<Candidate>)
    ensures Descending(Ranked(cs)) && multiset(Ranked(cs)) == multiset(cs)
    decreases |cs|
  {
    if cs != [] {
      RankedSorts(cs[1..]);
      PlaceRanks(cs[0], Ranked(cs[1..]));
      assert cs == [cs[0]] + cs[1..];
    }
  }

  lemma {:induction false} PlausibleKeeps(cs: seq<Candidate>, c: Candidate)
    ensures multiset(Plausible(cs))[c] == if c.score >= DISPUTE_THRESHOLD then multiset(cs)[c] else 0
    decreases |cs|
  {
    if cs != [] {
      PlausibleKeeps(cs[1..], c);
      assert cs == [cs[0]] + cs[1..];
      assert multiset(cs) == multiset{cs[0]} + multiset(cs[1..]);
      if cs[0].score >= DISPUTE_THRESHOLD {
        assert Plausible(cs) == [cs[0]] + Plausible(cs[1..]);
        assert multiset(Plausible(cs)) == multiset{cs[0]} + multiset(Plausible(cs[1..]));
      } else {
        assert Plausible(cs) == Plausible(cs[1..]);
      }
    }
  }

  /** A candidate good enough that everyone else, whoever they are, is clearly worse. */
  ghost predicate ClearWinner(all: multiset<Candidate>, c: Candidate) {
    && c in all && c.score >= AUTO_MATCH_THRESHOLD
    && forall d :: d in all - multiset{c} ==> d.score + AMBIGUITY_MARGIN <= c.score
  }

  /**
   Credits are attributed by similarity exactly to a clear winner over every profile of the tenant,
   including those below the dispute threshold and those cut from the list of suggestions.
   */
  lemma FuzzyAutoIffClearWinner(subject: set<string>, profiles: seq<UserProfile>, ratio: Ratio, u: string)
    requires subject != {}
    ensures var all := multiset(Scored(subject, profiles, ratio));
            Classify(false, subject, profiles, ratio).CountedUserId() == Some(u) <==>
            exists c :: ClearWinner(all, c) && c.userId == u
  {
    var scored := Scored(subject, profiles, ratio);
    var all := multiset(scored);
    var ranked := Ranked(Plausible(scored));
    RankedSorts(Plausible(scored));
    CountedByRanking(subject, profiles, ratio);
    forall c: Candidate ensures multiset(ranked)[c] == if c.score >= DISPUTE_THRESHOLD then all[c] else 0 {
      PlausibleKeeps(scored, c);
    }
    WinnerIsLeader(ranked, all, u);
  }

  lemma CountedByRanking(subject: set<string>, profiles: seq<UserProfile>, ratio: Ratio)
    requires subject != {}
    ensures var ranked := Ranked(Plausible(Scored(subject, profiles, ratio)));
            Classify(false, subject, profiles, ratio).CountedUserId() ==
            if ranked != [] && Leads(ranked) then Some(ranked[0].userId) else None
  {
  }

  lemma WinnerIsLeader(ranked: seq<Candidate>, all: multiset<Candidate>, u: string)
    requires Descending(ranked)
    requires forall d: Candidate :: multiset(ranked)[d] == if d.score >= DISPUTE_THRESHOLD then all[d] else 0
    ensures ranked != [] && Leads(ranked) && ranked[0].userId == u <==> exists c :: ClearWinner(all, c) && c.userId == u
  {
    if c :| ClearWinner(all, c) && c.userId == u {
      assert multiset(ranked)[c] == all[c];
      assert c in multiset(ranked);
      WinnerLeads(ranked, all, c);
    }
    if ranked != [] && Leads(ranked) {
      LeaderWins(ranked, all);
    }
  }

  /** The guards under which the first of a ranking is applied. */
  predicate Leads(ranked: seq<Candidate>)
    requires ranked != []
  {
    ranked[0].score >= AUTO_MATCH_THRESHOLD && (|ranked| == 1 || ranked[0].score - ranked[1].score >= AMBIGUITY_MARGIN)
  }

  lemma LeaderWins(ranked: seq<Candidate>, all: multiset<Candidate>)
    requires ranked != [] && Descending(ranked) && Leads(ranked)
    requires forall d: Candidate :: multiset(ranked)[d] == if d.score >= DISPUTE_THRESHOLD then all[d] else 0
    ensures ClearWinner(all, ranked[0])
  {
    var top := ranked[0];
    TopTwo(ranked);
    assert top in multiset(ranked);
    forall d | d in all - multiset{top} ensures d.score + AMBIGUITY_MARGIN <= top.score {
      if d.score >= DISPUTE_THRESHOLD {
        assert d in multiset(ranked) - multiset{top};
      }
    }
  }

  lemma TopTwo(ranked: seq<Candidate>)
    requires ranked != [] && Descending(ranked)
    ensures forall d :: d in multiset(ranked) - multiset{ranked[0]} ==> |ranked| > 1 && d.score <= ranked[1].score
  {
    assert ranked == [ranked[0]] + ranked[1..];
    assert multiset(ranked) - multiset{ranked[0]} == multiset(ranked[1..]);
    forall d | d in multiset(ranked[1..]) ensures |ranked| > 1 && d.score <= ranked[1].score {
      var j :| 0 <= j < |ranked[1..]| && ranked[1..][j] == d;
      assert ranked[j + 1] == d;
    }
  }

  /** A clear winner stands first, and whoever stands second is clearly worse. */
  lemma WinnerLeads(ranked: seq<Candidate>, all: multiset<Candidate>, c: Candidate)
    requires ranked != [] && Descending(ranked) && ClearWinner(all, c)
    requires forall d: Candidate :: multiset(ranked)[d] == if d.score >= DISPUTE_THRESHOLD then all[d] else 0
    ensures ranked[0] == c && (|ranked| > 1 ==> ranked[0].score - ranked[1].score >= AMBIGUITY_MARGIN)
  {
    assert c in multiset(ranked);
    var i :| 0 <= i < |ranked| && ranked[i] == c;
    assert ranked[0] in multiset(ranked);
    var top := ranked[0];
    assert top == c || top in all - multiset{c};
    if |ranked| > 1 {
      assert ranked == [ranked[0]] + ([ranked[1]] + ranked[2..]);
      assert multiset(ranked) == multiset{ranked[0]} + (multiset{ranked[1]} + multiset(ranked[2..]));
      assert multiset(ranked)[ranked[1]] == all[ranked[1]];
      assert ranked[1] in all - multiset{c};
    }
  }

  lemma {:induction false} ScoredConcat(subject: set<string>, a: seq<UserProfile>, b: seq<UserProfile>, ratio: Ratio)
    ensures Scored(subject, a + b, ratio) == Scored(subject, a, ratio) + Scored(subject, b, ratio)
    decreases |a|
  {
    if a == [] {
      assert a + b == b;
    } else {
      assert (a + b)[1..] == a[1..] + b;
      ScoredConcat(subject, a[1..], b, ratio);
    }
  }

  lemma {:induction false} ScoresIgnoreOrder(
    subject: set<string>, p: seq<UserProfile>, q: seq<UserProfile>, ratio: Ratio)
    requires multiset(p) == multiset(q)
    ensures multiset(Scored(subject, p, ratio)) == multiset(Scored(subject, q, ratio))
    decreases |p|
  {
    if p == [] {
      SameLength(p, q);
      assert q == p;
    } else {
      var i := Position(p[0], p, q);
      Drop(p, q, i);
      ScoresIgnoreOrder(subject, p[..0] + p[1..], q[..i] + q[i + 1..], ratio);
      SameWithout(subject, p, 0, q, i, ratio);
    }
  }

  lemma SameWithout(subject: set<string>, p: seq<UserProfile>, j: nat, q: seq<UserProfile>, i: nat, ratio: Ratio)
    requires i < |q| && j < |p| && p[j] == q[i]
    requires multiset(Scored(subject, p[..j] + p[j + 1..], ratio))
        == multiset(Scored(subject, q[..i] + q[i + 1..], ratio))
    ensures multiset(Scored(subject, p, ratio)) == multiset(Scored(subject, q, ratio))
  {
    ScoresWithout(subject, q, i, ratio);
    ScoresWithout(subject, p, j, ratio);
  }

  lemma Position(u: UserProfile, p: seq<UserProfile>, q: seq<UserProfile>) returns (i: nat)
    requires multiset(p) == multiset(q) && u in p
    ensures i < |q| && q[i] == u
  {
    assert u in multiset(p) && u in multiset(q);
    i :| 0 <= i < |q| && q[i] == u;
  }

  lemma Drop(p: seq<UserProfile>, q: seq<UserProfile>, i: nat)
    requires multiset(p) == multiset(q) && p != [] && i < |q| && q[i] == p[0]
    ensures multiset(p[..0] + p[1..]) == multiset(q[..i] + q[i + 1..]) && |p[..0] + p[1..]| < |p|
  {
    WithoutOne(q, i);
    WithoutOne(p, 0);
  }

  lemma SameLength(p: seq<UserProfile>, q: seq<UserProfile>)
    requires multiset(p) == multiset(q)
    ensures |p| == |q|
  {
    assert |multiset(p)| == |p| && |multiset(q)| == |q|;
  }

  lemma WithoutOne(q: seq<UserProfile>, i: nat)
    requires i < |q|
    ensures multiset(q[..i] + q[i + 1..]) == multiset(q) - multiset{q[i]}
  {
    assert q == q[..i] + ([q[i]] + q[i + 1..]);
  }

  lemma ScoresWithout(subject: set<string>, q: seq<UserProfile>, i: nat, ratio: Ratio)
    requires i < |q|
    ensures multiset(Scored(subject, q, ratio)) ==
            multiset(Scored(subject, q[..i] + q[i + 1..], ratio)) + multiset(Scored(subject, [q[i]], ratio))
  {
    assert q == q[..i] + ([q[i]] + q[i + 1..]);
    ScoredConcat(subject, q[..i], [q[i]] + q[i + 1..], ratio);
    ScoredConcat(subject, [q[i]], q[i + 1..], ratio);
    ScoredConcat(subject, q[..i], q[i + 1..], ratio);
  }

  /** Whom the credits count towards does not depend on the order users are synced in. */
  lemma AttributionIgnoresOrder(
    isBot: bool, subject: set<string>, p: seq<UserProfile>, q: seq<UserProfile>, ratio: Ratio)
    requires multiset(p) == multiset(q)
    ensures Classify(isBot, subject, p, ratio).CountedUserId() == Classify(isBot, subject, q, ratio).CountedUserId()
  {
    if !isBot && subject != {} {
      ScoresIgnoreOrder(subject, p, q, ratio);
      var a := Classify(isBot, subject, p, ratio).CountedUserId();
      var b := Classify(isBot, subject, q, ratio).CountedUserId();
      if a.Some? {
        FuzzyAutoIffClearWinner(subject, p, ratio, a.value);
        FuzzyAutoIffClearWinner(subject, q, ratio, a.value);
      }
      if b.Some? {
        FuzzyAutoIffClearWinner(subject, p, ratio, b.value);
        FuzzyAutoIffClearWinner(subject, q, ratio, b.value);
      }
    }
  }

  // ------------------------------------------------------ what the words above amount to

  lemma {:induction false} UnionSize(a: set<string>, b: set<string>)
    ensures |a + b| + |a * b| == |a| + |b|
    decreases |a|
  {
    if a == {} {
      assert a + b == b && a * b == {};
    } else {
      var x :| x in a;
      UnionSize(a - {x}, b);
      if x in b {
        assert (a - {x}) + b == a + b && (a - {x}) * b == a * b - {x};
      } else {
        assert (a - {x}) + b == a + b - {x} && (a - {x}) * b == a * b;
      }
    }
  }

  /** Shared tokens count six tenths against the smaller set and four tenths against both together. */
  lemma TokenScoreIs(a: set<string>, b: set<string>, shared: nat, smaller: nat, together: nat)
    requires a != {} && b != {} && shared == |a * b| && together == |a| + |b| - shared
    requires smaller <= |a| && smaller <= |b| && (smaller == |a| || smaller == |b|)
    ensures smaller > 0 && together > 0
    ensures TokenScore(a, b) == 0.6 * (shared as real / smaller as real) + 0.4 * (shared as real / together as real)
  {
    UnionSize(a, b);
    assert a <= a + b;
    SubsetSize(a, a + b);
  }

  /** Alike sets are certain, empty ones never match, and otherwise the better of the two scores decides. */
  lemma SimilarityMeans(a: set<string>, b: set<string>, ratio: Ratio)
    ensures a == {} || b == {} ==> Similarity(a, b, ratio) == 0.0
    ensures a != {} && a == b ==> Similarity(a, b, ratio) == 1.0
    ensures a != {} && b != {} && a != b ==>
              && Similarity(a, b, ratio) >= TokenScore(a, b) && Similarity(a, b, ratio) >= ratio(a, b)
              && (Similarity(a, b, ratio) == TokenScore(a, b) || Similarity(a, b, ratio) == ratio(a, b))
  {
  }

  /** Which of the runs of an identity string are its tokens: no lone characters, and no service prefix. */
  lemma TokensOfOne(value: string, token: string)
    ensures token in TokensOf(value) <==>
            var parts := Runs([], SplitSource(value));
            && |token| >= 2
            && exists k :: 0 <= k < |parts| && parts[k] == token && (k == 0 ==> token !in {"cx", "svc", "srv"})
  {
    var parts := Runs([], SplitSource(value));
    if parts != [] && parts[0] in PREFIX_TOKENS {
      assert parts == [parts[0]] + parts[1..];
      assert forall k :: 1 <= k < |parts| ==> parts[1..][k - 1] == parts[k];
    }
  }

  lemma {:induction false} TokensOfMany(values: seq<string>, token: string)
    ensures token in Tokens(values) <==> exists v :: v in values && token in TokensOf(v)
  {
    if values != [] {
      TokensOfMany(values[1..], token);
      assert values == [values[0]] + values[1..];
    }
  }

  predicate OccursAt(s: string, infix: string, i: nat) {
    i + |infix| <= |s| && s[i..i + |infix|] == infix
  }

  lemma {:induction false} InfixIff(s: string, infix: string)
    ensures HasInfix(s, infix) <==> exists i: nat :: OccursAt(s, infix, i)
  {
    if infix <= s {
      assert OccursAt(s, infix, 0);
    } else if s != [] {
      InfixIff(s[1..], infix);
      forall i: nat ensures OccursAt(s, infix, i + 1) <==> OccursAt(s[1..], infix, i) {
        InfixShifts(s, infix, i);
      }
      assert !OccursAt(s, infix, 0);
      if i: nat :| OccursAt(s, infix, i) {
        assert OccursAt(s[1..], infix, i - 1);
      }
      if i: nat :| OccursAt(s[1..], infix, i) {
        assert OccursAt(s, infix, i + 1);
      }
    } else {
      assert forall i: nat :: OccursAt(s, infix, i) ==> infix == [];
    }
  }

  lemma InfixShifts(s: string, infix: string, i: nat)
    requires s != []
    ensures OccursAt(s, infix, i + 1) <==> OccursAt(s[1..], infix, i)
  {
    if i + 1 + |infix| <= |s| {
      assert s[1..][i..i + |infix|] == s[i + 1..i + 1 + |infix|];
    }
  }

  lemma {:induction false} LocalPart(s: string, domain: string)
    requires '@' !in s
    ensures BeforeAt(s) == s && BeforeAt(s + ['@'] + domain) == s
  {
    if s != [] {
      assert (s + ['@'] + domain)[1..] == s[1..] + ['@'] + domain;
      LocalPart(s[1..], domain);
    } else {
      assert [] + ['@'] + domain == ['@'] + domain;
    }
  }

  /** Known bots are recognised by handle and by address, marked ones wherever the mark is. */
  lemma BotsAreRecognised(value: string, domain: string)
    ensures Normal(value) in BOT_NAMES ==> IsBotSubject([value]) || value == ""
    ensures '@' !in Normal(value) && Normal(value) in BOT_NAMES ==>
              BeforeAt(Normal(value) + ['@'] + domain) in BOT_NAMES
    ensures (exists i: nat :: OccursAt(Normal(value), "[bot]", i)) ==> IsBotName(value)
    ensures !IsBotName(value) ==> Normal(value) !in BOT_NAMES && BeforeAt(Normal(value)) !in BOT_NAMES
  {
    InfixIff(Normal(value), "[bot]");
    if '@' !in Normal(value) {
      LocalPart(Normal(value), domain);
    }
    assert value in [value];
  }

  /** The candidates worth showing. */
  predicate IsPlausible(c: Candidate) {
    c.score >= 0.60
  }

  /** Nobody is listed before somebody with a better score, or as good a one and an earlier name. */
  ghost predicate InOrder(cs: seq<Candidate>) {
    forall i, j :: 0 <= i < j < |cs| ==>
      !(cs[j].score > cs[i].score || (cs[j].score == cs[i].score && Precedes(cs[j].name, cs[i].name)))
  }

  lemma OutranksIsAnOrder(a: Candidate, b: Candidate, c: Candidate)
    ensures Outranks(a, b) ==> !Outranks(b, a)
    ensures !Outranks(a, b) && !Outranks(b, c) ==> !Outranks(a, c)
  {
    PrecedesIsTotal(a.name, b.name);
    PrecedesIsTotal(b.name, c.name);
    PrecedesIsTotal(a.name, c.name);
    if Precedes(a.name, c.name) && Precedes(c.name, b.name) {
      PrecedesChains(a.name, c.name, b.name);
    }
    if Precedes(b.name, a.name) && Precedes(a.name, c.name) {
      PrecedesChains(b.name, a.name, c.name);
    }
  }

  lemma {:induction false} PlaceKeepsOrder(c: Candidate, ranked: seq<Candidate>)
    requires InOrder(ranked)
    ensures InOrder(Place(c, ranked))
    decreases |ranked|
  {
    if ranked != [] && Outranks(ranked[0], c) {
      PlaceKeepsOrder(c, ranked[1..]);
      PlaceKeeps(c, ranked[1..]);
      var rest := Place(c, ranked[1..]);
      OutranksIsAnOrder(ranked[0], c, c);
      forall j | 0 <= j < |rest| ensures !Outranks(rest[j], ranked[0]) {
        assert rest[j] in multiset(rest);
        assert rest[j] == c || rest[j] in ranked[1..];
      }
    } else {
      forall j | 0 <= j < |ranked| ensures !Outranks(ranked[j], c) {
        OutranksIsAnOrder(ranked[j], ranked[0], c);
        OutranksIsAnOrder(ranked[j], ranked[j], c);
      }
    }
  }

  /** Suggestions come by score, and by name among equals. */
  lemma {:induction false} RankedInOrder(cs: seq<Candidate>)
    ensures InOrder(Ranked(cs))
  {
    if cs != [] {
      RankedInOrder(cs[1..]);
      PlaceKeepsOrder(cs[0], Ranked(cs[1..]));
    }
  }

  lemma SuggestionsInOrder(subject: set<string>, profiles: seq<UserProfile>, ratio: Ratio)
    ensures InOrder(RankCandidates(subject, profiles, ratio))
  {
    RankedInOrder(Plausible(Scored(subject, profiles, ratio)));
  }

  /** The best plausible candidates, at most five, the best first. */
  ghost predicate AreTheBest(cs: seq<Candidate>, all: multiset<Candidate>) {
    && Descending(cs) && |cs| <= 5 && multiset(cs) <= all && (forall c :: c in cs ==> IsPlausible(c))
    && (forall c :: c in all - multiset(cs) && IsPlausible(c) ==>
          |cs| == 5 && forall d :: d in cs ==> d.score >= c.score)
    && (cs == [] <==> forall c :: c in all ==> !IsPlausible(c))
  }

  ghost predicate HasWinner(all: multiset<Candidate>) {
    exists c :: ClearWinner(all, c)
  }

  /**
   What is decided about a subject that is neither pinned nor found by the ladder: a bot or an empty
   subject is left alone; otherwise the best plausible users are suggested, and the decision is
   automatic for a clear winner, disputed when there are only others, and open when there are none.
   */
  lemma ClassifyMeans(isBot: bool, subject: set<string>, profiles: seq<UserProfile>, ratio: Ratio)
    ensures var out := Classify(isBot, subject, profiles, ratio);
            var all := multiset(Scored(subject, profiles, ratio));
            && out.isBot == isBot
            && (isBot || subject == {} ==> out.how == Unmatched && out.userId == None && out.candidates == [])
            && (!isBot && subject != {} ==>
                  && AreTheBest(out.candidates, all)
                  && out.how ==
                     (if HasWinner(all) then FuzzyAuto else if out.candidates == [] then Unmatched else Disputed))
  {
    if !isBot && subject != {} {
      SuggestionsAreTheBest(subject, profiles, ratio);
      DecisionMeans(subject, profiles, ratio);
      SuggestionsAreKept(subject, profiles, ratio);
    }
  }

  lemma SuggestionsAreKept(subject: set<string>, profiles: seq<UserProfile>, ratio: Ratio)
    requires subject != {}
    ensures var out := Classify(false, subject, profiles, ratio);
            && out.candidates == RankCandidates(subject, profiles, ratio) && !out.isBot
            && (out.how == Unmatched <==> out.candidates == [])
            && (out.how == FuzzyAuto || out.how == Disputed || out.how == Unmatched)
            && (out.how == FuzzyAuto <==> out.CountedUserId().Some?)
  {
  }

  lemma DecisionMeans(subject: set<string>, profiles: seq<UserProfile>, ratio: Ratio)
    requires subject != {}
    ensures Classify(false, subject, profiles, ratio).how == FuzzyAuto <==>
            HasWinner(multiset(Scored(subject, profiles, ratio)))
  {
    SuggestionsAreKept(subject, profiles, ratio);
    var counted := Classify(false, subject, profiles, ratio).CountedUserId();
    var all := multiset(Scored(subject, profiles, ratio));
    if counted.Some? {
      FuzzyAutoIffClearWinner(subject, profiles, ratio, counted.value);
    }
    if HasWinner(all) {
      var c :| ClearWinner(all, c);
      FuzzyAutoIffClearWinner(subject, profiles, ratio, c.userId);
    }
  }

  /** How many of the scored profiles are worth showing: all of them are ranked, and nothing else. */
  lemma RankedArePlausible(subject: set<string>, profiles: seq<UserProfile>, ratio: Ratio, c: Candidate)
    ensures multiset(Ranked(Plausible(Scored(subject, profiles, ratio))))[c] ==
            if IsPlausible(c) then multiset(Scored(subject, profiles, ratio))[c] else 0
  {
    RankedSorts(Plausible(Scored(subject, profiles, ratio)));
    PlausibleKeeps(Scored(subject, profiles, ratio), c);
  }

  lemma SuggestionsAreTheBest(subject: set<string>, profiles: seq<UserProfile>, ratio: Ratio)
    ensures AreTheBest(RankCandidates(subject, profiles, ratio), multiset(Scored(subject, profiles, ratio)))
  {
    var all := multiset(Scored(subject, profiles, ratio));
    var ranked := Ranked(Plausible(Scored(subject, profiles, ratio)));
    var cs := RankCandidates(subject, profiles, ratio);
    RankedSorts(Plausible(Scored(subject, profiles, ratio)));
    forall c: Candidate ensures multiset(ranked)[c] == if IsPlausible(c) then all[c] else 0 {
      RankedArePlausible(subject, profiles, ratio, c);
    }
    assert cs == ranked[..|cs|];
    TopOf(ranked, all, |cs|);
  }

  /** The first few of a ranking of the plausible. */
  lemma TopOf(ranked: seq<Candidate>, all: multiset<Candidate>, n: nat)
    requires Descending(ranked) && n == (if |ranked| <= 5 then |ranked| else 5)
    requires forall c: Candidate :: multiset(ranked)[c] == if IsPlausible(c) then all[c] else 0
    ensures AreTheBest(ranked[..n], all)
  {
    PrefixLeads(ranked, n);
    TopIsPlausible(ranked, all, n);
    RestIsNoBetter(ranked, all, n);
    EmptyIffNonePlausible(ranked, all);
  }

  lemma TopIsPlausible(ranked: seq<Candidate>, all: multiset<Candidate>, n: nat)
    requires n <= |ranked| && forall c: Candidate :: multiset(ranked)[c] == if IsPlausible(c) then all[c] else 0
    ensures forall c :: c in ranked[..n] ==> IsPlausible(c)
  {
    forall c | c in ranked[..n] ensures IsPlausible(c) {
      assert c in ranked && multiset(ranked)[c] > 0;
    }
  }

  lemma RestIsNoBetter(ranked: seq<Candidate>, all: multiset<Candidate>, n: nat)
    requires Descending(ranked) && n == (if |ranked| <= 5 then |ranked| else 5)
    requires forall c: Candidate :: multiset(ranked)[c] == if IsPlausible(c) then all[c] else 0
    ensures forall c :: c in all - multiset(ranked[..n]) && IsPlausible(c) ==>
              n == 5 && forall d :: d in ranked[..n] ==> d.score >= c.score
  {
    PrefixLeads(ranked, n);
    forall c | c in all - multiset(ranked[..n]) && IsPlausible(c)
      ensures n == 5 && forall d :: d in ranked[..n] ==> d.score >= c.score
    {
      assert c in multiset(ranked) - multiset(ranked[..n]);
    }
  }

  lemma EmptyIffNonePlausible(ranked: seq<Candidate>, all: multiset<Candidate>)
    requires forall c: Candidate :: multiset(ranked)[c] == if IsPlausible(c) then all[c] else 0
    ensures ranked == [] <==> forall c :: c in all ==> !IsPlausible(c)
  {
    if ranked != [] {
      assert ranked[0] in multiset(ranked);
    } else {
      forall c | c in all ensures !IsPlausible(c) {
        assert multiset(ranked)[c] == 0;
      }
    }
  }

  /** A prefix of a descending list dominates whatever it leaves out. */
  lemma PrefixLeads(ranked: seq<Candidate>, n: nat)
    requires Descending(ranked) && n <= |ranked|
    ensures multiset(ranked[..n]) <= multiset(ranked)
    ensures forall c :: c in multiset(ranked) - multiset(ranked[..n]) ==>
              n < |ranked| && forall d :: d in ranked[..n] ==> d.score >= c.score
  {
    assert ranked == ranked[..n] + ranked[n..];
    assert multiset(ranked) - multiset(ranked[..n]) == multiset(ranked[n..]);
    forall c | c in multiset(ranked[n..])
      ensures n < |ranked| && forall d :: d in ranked[..n] ==> d.score >= c.score
    {
      var j :| 0 <= j < |ranked[n..]| && ranked[n..][j] == c;
      assert ranked[n + j] == c;
    }
  }
}
