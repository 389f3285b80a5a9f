/** The repository data behind the portfolio (src/hooks/useGitHubData.ts):
    which repositories count, their star total, the per-language byte totals,
    and the ranking that picks the featured repositories. Fetching is left to
    the caller: the hosting API's answers arrive as parameters. */
module GitHubData {
  import opened Common
  import opened Text
  import opened StableSort

  /** The fields of a hosting-API repository record the portfolio reads.
      `null` or missing fields are `None`; `updatedAt` is the update time in
      milliseconds since the epoch. */
  datatype Repo = Repo(
    id: int,
    name: string,
    description: Option<string>,
    language: Option<string>,
    stars: nat,
    forks: nat,
    htmlUrl: string,
    homepage: Option<string>,
    topics: Option<seq<string>>,
    createdAt: string,
    updatedAt: int,
    fork: bool,
    archived: bool)

  // ---------------------------------------------------------------------
  // Original repositories and their stars

  predicate IsOriginal(r: Repo) { !r.fork && !r.archived }

  /** `repos.filter(repo => !repo.fork && !repo.archived)` */
  function OriginalRepos(repos: seq<Repo>): (r: seq<Repo>)
    ensures forall x :: x in r <==> x in repos && !x.fork && !x.archived
    ensures forall x :: multiset(r)[x] == if !x.fork && !x.archived then multiset(repos)[x] else 0
    ensures IsSubsequence(r, repos)
  {
    Filter(repos, IsOriginal)
  }

  /** `repos.reduce((sum, repo) => sum + repo.stargazers_count, 0)` */
  function TotalStars(repos: seq<Repo>): (n: nat)
    ensures forall x :: x in repos ==> x.stars <= n
  {
    if repos == [] then 0
    else
      assert forall x :: x in repos && x != repos[0] ==> x in repos[1..];
      repos[0].stars + TotalStars(repos[1..])
  }

  /** The stars of the repositories that are neither forks nor archived. */
  function StarsOfOriginals(repos: seq<Repo>): (n: nat)
    ensures n <= TotalStars(repos)
  {
    if repos == [] then 0
    else (if IsOriginal(repos[0]) then repos[0].stars else 0) + StarsOfOriginals(repos[1..])
  }

  /** The star total counts exactly the original repositories. */
  lemma {:induction false} TotalStarsOfOriginals(repos: seq<Repo>)
    ensures TotalStars(OriginalRepos(repos)) == StarsOfOriginals(repos)
  {
    if repos != [] {
      TotalStarsOfOriginals(repos[1..]);
      assert repos == [repos[0]] + repos[1..];
      var rest := Filter(repos[1..], IsOriginal);
      if IsOriginal(repos[0]) {
        assert ([repos[0]] + rest)[1..] == rest;
      }
    }
  }

  /** A fork or an archived repository adds no stars. */
  lemma {:induction false} StarsIgnoreExcluded(repos: seq<Repo>, x: Repo)
    requires x.fork || x.archived
    ensures TotalStars(OriginalRepos([x] + repos)) == TotalStars(OriginalRepos(repos))
  {
    TotalStarsOfOriginals([x] + repos);
    TotalStarsOfOriginals(repos);
    assert ([x] + repos)[1..] == repos;
  }

  // ---------------------------------------------------------------------
  // The score of `selectFeaturedRepos`

  /** `(now - updated) / (1000 * 60 * 60 * 24)` */
  function DaysSinceUpdate(now: int, updatedAt: int): (d: real)
    ensures d * 86400000.0 == (now - updatedAt) as real
    ensures 0.0 <= d <==> updatedAt <= now
  {
    (now - updatedAt) as real / 86400000.0
  }

  /** `Math.min(stars * 5, 50)` */
  function StarScore(stars: nat): (s: real)
    ensures 0.0 <= s <= 50.0
    ensures stars >= 10 ==> s == 50.0
    ensures stars < 10 ==> s == 5.0 * stars as real
  {
    Min(stars * 5, 50) as real
  }

  lemma StarScoreMonotone(a: nat, b: nat)
    requires a <= b
    ensures StarScore(a) <= StarScore(b)
  {
  }

  /** `Math.max(0, 20 - days / 30)` */
  function RecencyScore(days: real): (s: real)
    ensures 0.0 <= s
    ensures days >= 0.0 ==> s <= 20.0
    ensures s == 0.0 <==> days >= 600.0
  {
    var x := 20.0 - days / 30.0;
    if x > 0.0 then x else 0.0
  }

  lemma RecencyScoreMonotone(d1: real, d2: real)
    requires d1 <= d2
    ensures RecencyScore(d1) >= RecencyScore(d2)
  {
  }

  /** `repo.description && repo.description.length > 10` */
  function DescriptionScore(d: Option<string>): (s: real)
    ensures s == 10.0 <==> d.Some? && |d.value| > 10
    ensures s == 0.0 <==> !(d.Some? && |d.value| > 10)
  {
    if d.Some? && |d.value| > 10 then 10.0 else 0.0
  }

  /** A homepage counts when present and non-empty. */
  function HomepageScore(h: Option<string>): (s: real)
    ensures s == 15.0 <==> h.Some? && h.value != ""
    ensures s == 0.0 <==> !(h.Some? && h.value != "")
  {
    if h.Some? && h.value != "" then 15.0 else 0.0
  }

  /** `repo.topics && repo.topics.length > 0` */
  function TopicsScore(t: Option<seq<string>>): (s: real)
    ensures s == 5.0 <==> t.Some? && |t.value| > 0
    ensures s == 0.0 <==> !(t.Some? && |t.value| > 0)
  {
    if t.Some? && |t.value| > 0 then 5.0 else 0.0
  }

  const BonusKeywords: seq<string> := ["app", "web", "api", "dashboard", "tool", "platform", "system"]

  /** `` `${repo.name} ${repo.description || ''}`.toLowerCase() `` */
  function SearchText(r: Repo): (s: string)
    ensures |s| == |r.name| + 1 + (if r.description.Some? then |r.description.value| else 0)
    ensures s[..|r.name|] == ToLower(r.name) && s[|r.name|] == ' '
    ensures s[|r.name| + 1..] == ToLower(if r.description.Some? then r.description.value else "")
    ensures forall i :: 0 <= i < |s| ==> !IsUpper(s[i])
  {
    var d := if r.description.Some? then r.description.value else "";
    ToLower(r.name + " " + d)
  }

  /** How many of `keywords` occur in `text`, each counted once. */
  function KeywordCount(text: string, keywords: seq<string>): (n: nat)
    ensures n <= |keywords|
  {
    if keywords == [] then 0
    else
      KeywordCount(text, keywords[..|keywords| - 1])
        + (if Contains(text, keywords[|keywords| - 1]) then 1 else 0)
  }

  /** The keywords found in `text`. */
  function FoundKeywords(text: string, keywords: seq<string>): set<string> {
    set k | k in keywords && Contains(text, k)
  }

  lemma FoundKeywordsSnoc(text: string, p: seq<string>, k: string)
    ensures FoundKeywords(text, p + [k]) == FoundKeywords(text, p) + (if Contains(text, k) then {k} else {})
  {
    assert forall y :: y in p + [k] <==> y in p || y == k;
  }

  /** With distinct keywords the count is the number of keywords found. */
  lemma {:induction false} KeywordCountIsFound(text: string, keywords: seq<string>)
    requires forall i, j :: 0 <= i < j < |keywords| ==> keywords[i] != keywords[j]
    ensures KeywordCount(text, keywords) == |FoundKeywords(text, keywords)|
  {
    if keywords != [] {
      var p := keywords[..|keywords| - 1];
      var k := keywords[|keywords| - 1];
      KeywordCountIsFound(text, p);
      assert k !in p by {
        forall i | 0 <= i < |p| ensures p[i] != k {
          assert p[i] == keywords[i];
        }
      }
      assert keywords == p + [k];
      FoundKeywordsSnoc(text, p, k);
      assert k !in FoundKeywords(text, p);
    }
  }

  lemma BonusKeywordsDistinct()
    ensures forall i, j :: 0 <= i < j < |BonusKeywords| ==> BonusKeywords[i] != BonusKeywords[j]
  {
  }

  /** The keyword bonus: three points per keyword found, at most 21. */
  function KeywordBonus(r: Repo): (b: real)
    ensures 0.0 <= b <= 21.0
  {
    3.0 * KeywordCount(SearchText(r), BonusKeywords) as real
  }

  lemma KeywordBonusCountsFound(r: Repo)
    ensures KeywordBonus(r) == 3.0 * |FoundKeywords(SearchText(r), BonusKeywords)| as real
  {
    BonusKeywordsDistinct();
    KeywordCountIsFound(SearchText(r), BonusKeywords);
  }

  /** Every term except the keyword bonus. */
  function BaseScore(r: Repo, now: int): (b: real)
    ensures 0.0 <= b
    ensures r.updatedAt <= now ==> b <= 100.0
  {
    StarScore(r.stars) + RecencyScore(DaysSinceUpdate(now, r.updatedAt))
      + DescriptionScore(r.description) + HomepageScore(r.homepage) + TopicsScore(r.topics)
  }

  /** The score `selectFeaturedRepos` gives a repository at time `now`. */
  function Score(r: Repo, now: int): (s: real)
    ensures BaseScore(r, now) <= s <= BaseScore(r, now) + 21.0
  {
    BaseScore(r, now) + KeywordBonus(r)
  }

  /** The score is non-negative, and at most 121 for a repository updated
      no later than `now`. */
  lemma ScoreBounds(r: Repo, now: int)
    ensures 0.0 <= Score(r, now)
    ensures r.updatedAt <= now ==> Score(r, now) <= 121.0
  {
  }

  /** More stars never lower the score of an otherwise identical repository. */
  lemma ScoreStarsMonotone(r: Repo, now: int, stars: nat)
    requires r.stars <= stars
    ensures Score(r, now) <= Score(r.(stars := stars), now)
  {
    assert SearchText(r.(stars := stars)) == SearchText(r);
    StarScoreMonotone(r.stars, stars);
  }

  /** A non-empty homepage adds exactly 15. */
  lemma HomepageAddsFifteen(r: Repo, now: int, h: string)
    requires h != ""
    ensures Score(r.(homepage := Some(h)), now) == Score(r.(homepage := None), now) + 15.0
  {
    assert SearchText(r.(homepage := Some(h))) == SearchText(r.(homepage := None));
  }

  /** Non-empty topics add exactly 5. */
  lemma TopicsAddFive(r: Repo, now: int, t: seq<string>)
    requires |t| > 0
    ensures Score(r.(topics := Some(t)), now) == Score(r.(topics := None), now) + 5.0
  {
    assert SearchText(r.(topics := Some(t))) == SearchText(r.(topics := None));
  }

  /** A description longer than 10 characters adds exactly 10, unless it
      also changes which keywords are found. */
  lemma LongDescriptionAddsTen(r: Repo, now: int, d: string)
    requires |d| > 10
    requires KeywordBonus(r.(description := Some(d))) == KeywordBonus(r.(description := None))
    ensures Score(r.(description := Some(d)), now) == Score(r.(description := None), now) + 10.0
  {
  }

  /** The body of the `repos.map` callback: the score summed term by term,
      then the keyword loop. */
  method ScoreRepo(repo: Repo, now: int) returns (score: real)
    ensures score == Score(repo, now)
  {
    score := 0.0;
    score := score + StarScore(repo.stars);
    var daysSinceUpdate := DaysSinceUpdate(now, repo.updatedAt);
    score := score + RecencyScore(daysSinceUpdate);
    if repo.description.Some? && |repo.description.value| > 10 {
      score := score + 10.0;
    }
    if repo.homepage.Some? && repo.homepage.value != "" {
      score := score + 15.0;
    }
    if repo.topics.Some? && |repo.topics.value| > 0 {
      score := score + 5.0;
    }
    var text := SearchText(repo);
    var i := 0;
    while i < |BonusKeywords|
      invariant 0 <= i <= |BonusKeywords|
      invariant score == BaseScore(repo, now) + 3.0 * KeywordCount(text, BonusKeywords[..i]) as real
    {
      assert BonusKeywords[..i + 1][..i] == BonusKeywords[..i];
      if Contains(text, BonusKeywords[i]) {
        score := score + 3.0;
      }
      i := i + 1;
    }
    assert BonusKeywords[..i] == BonusKeywords;
  }

  // ---------------------------------------------------------------------
  // Featured repositories

  /** `{ ...repo, score }` */
  datatype ScoredRepo = ScoredRepo(repo: Repo, score: real)

  function ScoreKey(s: ScoredRepo): real { s.score }

  function ScoreAll(repos: seq<Repo>, now: int): (r: seq<ScoredRepo>)
    ensures |r| == |repos|
    ensures forall i :: 0 <= i < |repos| ==> r[i].repo == repos[i] && r[i].score == Score(repos[i], now)
  {
    seq(|repos|, i requires 0 <= i < |repos| => ScoredRepo(repos[i], Score(repos[i], now)))
  }

  const FeaturedCount := 6

  /** The scored repositories sorted by descending score, stably. */
  function RankedRepos(repos: seq<Repo>, now: int): (r: seq<ScoredRepo>)
    ensures |r| == |repos|
    ensures multiset(r) == multiset(ScoreAll(repos, now))
    ensures SortedDesc(r, ScoreKey)
  {
    SortDesc(ScoreAll(repos, now), ScoreKey)
  }

  /** An element of the scored list is a repository of the input with its score. */
  lemma ScoredMember(repos: seq<Repo>, now: int, x: ScoredRepo)
    requires x in multiset(ScoreAll(repos, now))
    ensures x.repo in repos && x.score == Score(x.repo, now)
  {
    var s := ScoreAll(repos, now);
    var i :| 0 <= i < |s| && s[i] == x;
  }

  lemma RankedPrefix(repos: seq<Repo>, now: int, n: nat)
    requires n <= |repos|
    ensures var ranked := RankedRepos(repos, now);
      && multiset(ranked[..n]) + multiset(ranked[n..]) == multiset(ScoreAll(repos, now))
      && forall x :: x in ranked[..n] ==> x.repo in repos && x.score == Score(x.repo, now)
  {
    var ranked := RankedRepos(repos, now);
    assert ranked == ranked[..n] + ranked[n..];
    forall x | x in ranked[..n] ensures x.repo in repos && x.score == Score(x.repo, now) {
      assert x in multiset(ranked[..n]);
      ScoredMember(repos, now, x);
    }
  }

  /** `selectFeaturedRepos`: the six best-scored repositories, best first. */
  function SelectFeaturedRepos(repos: seq<Repo>, now: int): (r: seq<ScoredRepo>)
    ensures |r| == Min(FeaturedCount, |repos|)
    ensures forall x :: x in r ==> x.repo in repos && x.score == Score(x.repo, now)
    ensures SortedDesc(r, ScoreKey)
    ensures multiset(r) <= multiset(ScoreAll(repos, now))
  {
    var n := Min(FeaturedCount, |repos|);
    RankedPrefix(repos, now, n);
    RankedRepos(repos, now)[..n]
  }

  /** Repositories of equal score keep their input order. */
  lemma FeaturedKeepInputOrder(repos: seq<Repo>, now: int, k: real)
    ensures KeyFilter(SelectFeaturedRepos(repos, now), ScoreKey, k) <= KeyFilter(ScoreAll(repos, now), ScoreKey, k)
  {
    var ranked := RankedRepos(repos, now);
    KeyFilterPrefix(ranked, Min(FeaturedCount, |ranked|), ScoreKey, k);
    SortStable(ScoreAll(repos, now), ScoreKey, k);
  }

  /** No repository left out scores more than one that is featured. */
  lemma FeaturedAreTheBest(repos: seq<Repo>, now: int, y: ScoredRepo)
    requires y in multiset(ScoreAll(repos, now)) - multiset(SelectFeaturedRepos(repos, now))
    ensures forall x :: x in SelectFeaturedRepos(repos, now) ==> y.score <= x.score
  {
    var ranked := RankedRepos(repos, now);
    var n := Min(FeaturedCount, |ranked|);
    RankedPrefix(repos, now, n);
    assert y in multiset(ranked[n..]);
    SortedPrefixDominates(ranked, ScoreKey, n, y);
  }

  // ---------------------------------------------------------------------
  // Language aggregation

  /** The position of `lang` in `stats`, if present. */
  function FindKey(stats: LanguageMap, lang: string): (r: Option<nat>)
    ensures r.Some? ==> r.value < |stats| && stats[r.value].0 == lang
    ensures r.None? ==> !HasKey(stats, lang)
  {
    if stats == [] then None
    else if stats[0].0 == lang then Some(0)
    else
      var r := FindKey(stats[1..], lang);
      if r.Some? then Some(r.value + 1)
      else
        assert forall i :: 1 <= i < |stats| ==> stats[i] == stats[1..][i - 1];
        None
  }

  /** `languageStats[lang] = (languageStats[lang] || 0) + bytes` */
  function AddBytes(stats: LanguageMap, lang: string, bytes: nat): (r: LanguageMap)
    ensures HasKey(stats, lang) ==> |r| == |stats|
    ensures !HasKey(stats, lang) ==> r == stats + [(lang, bytes)]
  {
    var found := FindKey(stats, lang);
    if found.Some? then stats[found.value := (lang, stats[found.value].1 + bytes)]
    else stats + [(lang, bytes)]
  }

  /** Raising one entry raises the total for its key by the same amount. */
  lemma {:induction false} BytesOfRaise(m: LanguageMap, i: nat, bytes: nat, x: string)
    requires i < |m|
    ensures BytesOf(m[i := (m[i].0, m[i].1 + bytes)], x) == BytesOf(m, x) + (if m[i].0 == x then bytes else 0)
  {
    var m' := m[i := (m[i].0, m[i].1 + bytes)];
    var n := |m| - 1;
    if i == n {
      assert m'[..n] == m[..n];
    } else {
      BytesOfRaise(m[..n], i, bytes, x);
      assert m'[..n] == m[..n][i := (m[i].0, m[i].1 + bytes)];
    }
  }

  lemma BytesOfSnoc(m: LanguageMap, e: (string, nat), x: string)
    ensures BytesOf(m + [e], x) == BytesOf(m, x) + (if e.0 == x then e.1 else 0)
  {
    assert (m + [e])[..|m|] == m;
  }

  lemma HasKeySnoc(m: LanguageMap, e: (string, nat), x: string)
    ensures HasKey(m + [e], x) <==> HasKey(m, x) || e.0 == x
  {
    if HasKey(m, x) {
      var i :| 0 <= i < |m| && m[i].0 == x;
      assert (m + [e])[i] == m[i];
    }
    if e.0 == x {
      assert (m + [e])[|m|] == e;
    }
  }

  /** One update adds `bytes` to the total for `lang` and nothing else. */
  lemma AddBytesTotals(stats: LanguageMap, lang: string, bytes: nat, x: string)
    ensures BytesOf(AddBytes(stats, lang, bytes), x) == BytesOf(stats, x) + (if x == lang then bytes else 0)
  {
    var found := FindKey(stats, lang);
    if found.Some? {
      BytesOfRaise(stats, found.value, bytes, x);
    } else {
      BytesOfSnoc(stats, (lang, bytes), x);
    }
  }

  /** One update creates the key `lang` if it was missing, and no other. */
  lemma AddBytesKeys(stats: LanguageMap, lang: string, bytes: nat, x: string)
    ensures HasKey(AddBytes(stats, lang, bytes), x) <==> HasKey(stats, x) || x == lang
  {
    var found := FindKey(stats, lang);
    var r := AddBytes(stats, lang, bytes);
    if found.Some? {
      assert forall k :: 0 <= k < |r| ==> r[k].0 == stats[k].0;
      if HasKey(r, x) {
        var k :| 0 <= k < |r| && r[k].0 == x;
        assert stats[k].0 == x;
      }
      if HasKey(stats, x) {
        var k :| 0 <= k < |stats| && stats[k].0 == x;
        assert r[k].0 == x;
      }
    } else {
      HasKeySnoc(stats, (lang, bytes), x);
    }
  }

  /** One update keeps the keys distinct. */
  lemma AddBytesDistinct(stats: LanguageMap, lang: string, bytes: nat)
    requires KeysDistinct(stats)
    ensures KeysDistinct(AddBytes(stats, lang, bytes))
  {
    var found := FindKey(stats, lang);
    var r := AddBytes(stats, lang, bytes);
    if found.Some? {
      forall a, b | 0 <= a < b < |r| ensures EntryName(r[a]) != EntryName(r[b]) {
        assert r[a].0 == stats[a].0 && r[b].0 == stats[b].0;
      }
    } else {
      forall a, b | 0 <= a < b < |r| ensures EntryName(r[a]) != EntryName(r[b]) {
        assert r[a] == stats[a];
        if b < |stats| {
          assert r[b] == stats[b];
        }
      }
    }
  }

  /** `Object.entries(languages).forEach(...)`: every entry of one breakdown
      added into the totals, in order. */
  function Merge(stats: LanguageMap, languages: LanguageMap): (r: LanguageMap)
    ensures |stats| <= |r| <= |stats| + |languages|
  {
    if languages == [] then stats
    else
      var last := languages[|languages| - 1];
      AddBytes(Merge(stats, languages[..|languages| - 1]), last.0, last.1)
  }

  lemma {:induction false} MergeTotals(stats: LanguageMap, languages: LanguageMap, x: string)
    ensures BytesOf(Merge(stats, languages), x) == BytesOf(stats, x) + BytesOf(languages, x)
  {
    if languages != [] {
      var p := languages[..|languages| - 1];
      var last := languages[|languages| - 1];
      MergeTotals(stats, p, x);
      AddBytesTotals(Merge(stats, p), last.0, last.1, x);
    }
  }

  lemma {:induction false} MergeKeys(stats: LanguageMap, languages: LanguageMap, x: string)
    ensures HasKey(Merge(stats, languages), x) <==> HasKey(stats, x) || HasKey(languages, x)
  {
    if languages != [] {
      var p := languages[..|languages| - 1];
      var last := languages[|languages| - 1];
      MergeKeys(stats, p, x);
      AddBytesKeys(Merge(stats, p), last.0, last.1, x);
      assert languages == p + [last];
      HasKeySnoc(p, last, x);
    }
  }

  lemma {:induction false} MergeDistinct(stats: LanguageMap, languages: LanguageMap)
    requires KeysDistinct(stats)
    ensures KeysDistinct(Merge(stats, languages))
  {
    if languages != [] {
      var p := languages[..|languages| - 1];
      var last := languages[|languages| - 1];
      MergeDistinct(stats, p);
      AddBytesDistinct(Merge(stats, p), last.0, last.1);
    }
  }

  /** The totals after the breakdowns that were fetched, taken in order; a
      failed fetch (`None`) contributes nothing. */
  function Aggregate(breakdowns: seq<Option<LanguageMap>>): (r: LanguageMap)
    ensures (forall i :: 0 <= i < |breakdowns| ==> breakdowns[i].None?) ==> r == []
  {
    if breakdowns == [] then []
    else
      var earlier := Aggregate(breakdowns[..|breakdowns| - 1]);
      var last := breakdowns[|breakdowns| - 1];
      if last.Some? then Merge(earlier, last.value) else earlier
  }

  /** The bytes the fetched breakdowns attribute to `lang`. */
  function SumBytes(breakdowns: seq<Option<LanguageMap>>, lang: string): (n: nat)
    ensures forall i :: 0 <= i < |breakdowns| && breakdowns[i].Some? ==> BytesOf(breakdowns[i].value, lang) <= n
  {
    if breakdowns == [] then 0
    else
      var last := breakdowns[|breakdowns| - 1];
      SumBytes(breakdowns[..|breakdowns| - 1], lang) + (if last.Some? then BytesOf(last.value, lang) else 0)
  }

  /** Some fetched breakdown mentions `lang`. */
  ghost predicate Mentioned(breakdowns: seq<Option<LanguageMap>>, lang: string) {
    exists i :: 0 <= i < |breakdowns| && breakdowns[i].Some? && HasKey(breakdowns[i].value, lang)
  }

  /** The totals hold each language once. */
  lemma {:induction false} AggregateDistinct(breakdowns: seq<Option<LanguageMap>>)
    ensures KeysDistinct(Aggregate(breakdowns))
  {
    if breakdowns != [] {
      var p := breakdowns[..|breakdowns| - 1];
      var last := breakdowns[|breakdowns| - 1];
      AggregateDistinct(p);
      if last.Some? {
        MergeDistinct(Aggregate(p), last.value);
      }
    }
  }

  /** The total for a language is the sum of its bytes over the fetched
      breakdowns. */
  lemma {:induction false} AggregateTotals(breakdowns: seq<Option<LanguageMap>>, lang: string)
    ensures BytesOf(Aggregate(breakdowns), lang) == SumBytes(breakdowns, lang)
  {
    if breakdowns != [] {
      var p := breakdowns[..|breakdowns| - 1];
      var last := breakdowns[|breakdowns| - 1];
      AggregateTotals(p, lang);
      if last.Some? {
        MergeTotals(Aggregate(p), last.value, lang);
      }
    }
  }

  /** The totals hold exactly the languages the fetched breakdowns mention. */
  lemma {:induction false} AggregateKeys(breakdowns: seq<Option<LanguageMap>>, lang: string)
    ensures HasKey(Aggregate(breakdowns), lang) <==> Mentioned(breakdowns, lang)
  {
    if breakdowns != [] {
      var p := breakdowns[..|breakdowns| - 1];
      var last := breakdowns[|breakdowns| - 1];
      AggregateKeys(p, lang);
      if last.Some? {
        MergeKeys(Aggregate(p), last.value, lang);
      }
      if Mentioned(breakdowns, lang) {
        var i :| 0 <= i < |breakdowns| && breakdowns[i].Some? && HasKey(breakdowns[i].value, lang);
        if i < |p| {
          assert breakdowns[i] == p[i];
        }
      }
      if Mentioned(p, lang) {
        var i :| 0 <= i < |p| && p[i].Some? && HasKey(p[i].value, lang);
        assert breakdowns[i] == p[i];
      }
    }
  }

  const LanguageFetchLimit := 20

  /** The language loop: the breakdowns of the first 20 original
      repositories (`None` where the fetch failed) folded into one record. */
  method AggregateLanguages(breakdowns: seq<Option<LanguageMap>>) returns (languageStats: LanguageMap)
    ensures languageStats == Aggregate(breakdowns[..Min(LanguageFetchLimit, |breakdowns|)])
  {
    languageStats := [];
    var n := Min(LanguageFetchLimit, |breakdowns|);
    var k := 0;
    while k < n
      invariant 0 <= k <= n
      invariant languageStats == Aggregate(breakdowns[..k])
    {
      assert breakdowns[..k + 1][..k] == breakdowns[..k];
      if breakdowns[k].Some? {
        var languages := breakdowns[k].value;
        ghost var before := languageStats;
        var j := 0;
        while j < |languages|
          invariant 0 <= j <= |languages|
          invariant languageStats == Merge(before, languages[..j])
        {
          var (lang, bytes) := languages[j];
          assert languages[..j + 1][..j] == languages[..j];
          var found := FindKey(languageStats, lang);
          if found.Some? {
            languageStats := languageStats[found.value := (lang, languageStats[found.value].1 + bytes)];
          } else {
            languageStats := languageStats + [(lang, bytes)];
          }
          j := j + 1;
        }
        assert languages[..j] == languages;
      }
      k := k + 1;
    }
  }

  // ---------------------------------------------------------------------
  // The loaded state

  /** A featured repository with its own language breakdown attached. */
  datatype FeaturedRepo = FeaturedRepo(repo: Repo, score: real, detailedLanguages: LanguageMap)

  /** `featuredRepos.map(...)`: each featured repository with the breakdown
      fetched for it, or an empty one when that fetch failed. */
  function AttachLanguages(featured: seq<ScoredRepo>, fetched: seq<Option<LanguageMap>>): (r: seq<FeaturedRepo>)
    requires |fetched| == |featured|
    ensures |r| == |featured|
    ensures forall i :: 0 <= i < |r| ==>
      && r[i].repo == featured[i].repo && r[i].score == featured[i].score
      && r[i].detailedLanguages == (if fetched[i].Some? then fetched[i].value else [])
  {
    seq(|featured|, i requires 0 <= i < |featured| =>
      FeaturedRepo(featured[i].repo, featured[i].score,
                   if fetched[i].Some? then fetched[i].value else []))
  }

  /** The record the hook publishes once every fetch has settled. */
  datatype GitHubSummary = GitHubSummary(
    repos: seq<Repo>,
    featuredRepos: seq<FeaturedRepo>,
    languages: LanguageMap,
    totalStars: nat,
    totalRepos: nat)

  /** The language request made for each repository, in order. */
  function Breakdowns(repos: seq<Repo>, fetchLanguages: Repo -> Option<LanguageMap>): (r: seq<Option<LanguageMap>>)
    ensures |r| == |repos|
    ensures forall i :: 0 <= i < |repos| ==> r[i] == fetchLanguages(repos[i])
  {
    seq(|repos|, i requires 0 <= i < |repos| => fetchLanguages(repos[i]))
  }

  lemma BreakdownsPrefix(repos: seq<Repo>, fetchLanguages: Repo -> Option<LanguageMap>, n: nat)
    requires n <= |repos|
    ensures Breakdowns(repos, fetchLanguages)[..n] == Breakdowns(repos[..n], fetchLanguages)
  {
  }

  /** The successful path of `fetchGitHubData` after the repository list has
      arrived. `fetchLanguages` stands for the per-repository language
      request: `None` when it fails, the same answer for the same repository. */
  method LoadGitHubData(repos: seq<Repo>, now: int, fetchLanguages: Repo -> Option<LanguageMap>)
    returns (data: GitHubSummary)
    ensures data.repos == OriginalRepos(repos)
    ensures data.totalRepos == |data.repos|
    ensures data.totalStars == StarsOfOriginals(repos)
    ensures data.languages == Aggregate(Breakdowns(data.repos[..Min(LanguageFetchLimit, |data.repos|)], fetchLanguages))
    ensures var featured := SelectFeaturedRepos(data.repos, now);
      data.featuredRepos == AttachLanguages(featured, Breakdowns(seq(|featured|, i requires 0 <= i < |featured| => featured[i].repo), fetchLanguages))
  {
    var originalRepos := OriginalRepos(repos);
    var totalStars := TotalStars(originalRepos);
    TotalStarsOfOriginals(repos);
    var languageStats := AggregateLanguages(Breakdowns(originalRepos, fetchLanguages));
    BreakdownsPrefix(originalRepos, fetchLanguages, Min(LanguageFetchLimit, |originalRepos|));
    var featured := SelectFeaturedRepos(originalRepos, now);
    var featuredRepos := seq(|featured|, i requires 0 <= i < |featured| => featured[i].repo);
    var detailed := AttachLanguages(featured, Breakdowns(featuredRepos, fetchLanguages));
    data := GitHubSummary(originalRepos, detailed, languageStats, totalStars, |originalRepos|);
  }
}
