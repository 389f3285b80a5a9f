/** Assembly of the skill lists shown in the skills section
    (`processGitHubSkills`, src/components/Skills.tsx). */
module Skills {
  import opened Common
  import opened SkillsMapping
  import opened StableSort

  datatype Skill = Skill(name: string, level: int, fromGitHub: bool)

  /** The record of per-category lists, keyed by category. */
  type SkillTable = map<string, seq<Skill>>

  function SkillName(s: Skill): string { s.name }
  function LevelKey(s: Skill): real { s.level as real }

  const EmptySkillTable: SkillTable := map[
    "frontend" := [], "backend" := [], "database" := [],
    "mobile" := [], "cloud" := [], "security" := []
  ]

  lemma EmptySkillTableKeys()
    ensures EmptySkillTable.Keys == set c | c in SkillCategories
  {
  }

  /** `list.find(s => s.name === name)` found something. */
  predicate HasName(list: seq<Skill>, name: string) {
    exists i :: 0 <= i < |list| && list[i].name == name
  }

  /** A skill offered to a category list; it is pushed only when the list has
      no skill of that name yet. */
  type Candidate = (string, Skill)

  /** One guarded push of `processGitHubSkills`. */
  function PushIfAbsent(t: SkillTable, x: Candidate): (r: SkillTable)
    requires x.0 in t
    ensures r.Keys == t.Keys
  {
    if HasName(t[x.0], x.1.name) then t else t[x.0 := t[x.0] + [x.1]]
  }

  /** The guarded pushes of a sequence of candidates, in order. */
  function PushAll(t: SkillTable, cs: seq<Candidate>): (r: SkillTable)
    requires forall x :: x in cs ==> x.0 in t
    ensures r.Keys == t.Keys
  {
    if cs == [] then t
    else PushIfAbsent(PushAll(t, cs[..|cs| - 1]), cs[|cs| - 1])
  }

  /** The first candidate for category `c` named `n`, if any. */
  function FirstCandidate(cs: seq<Candidate>, c: string, n: string): (r: Option<Skill>)
    ensures r.Some? <==> exists k :: 0 <= k < |cs| && cs[k].0 == c && cs[k].1.name == n
    ensures r.Some? ==> exists k :: 0 <= k < |cs| && cs[k] == (c, r.value) && r.value.name == n
  {
    if cs == [] then None
    else
      var p := cs[..|cs| - 1];
      var earlier := FirstCandidate(p, c, n);
      var x := cs[|cs| - 1];
      assert forall k :: 0 <= k < |p| ==> cs[k] == p[k];
      if earlier.Some? then earlier
      else if x.0 == c && x.1.name == n then Some(x.1) else None
  }

  lemma {:induction false} FirstCandidateAppend(a: seq<Candidate>, b: seq<Candidate>, c: string, n: string)
    ensures FirstCandidate(a + b, c, n)
         == if FirstCandidate(a, c, n).Some? then FirstCandidate(a, c, n) else FirstCandidate(b, c, n)
  {
    if b == [] {
      assert a + b == a;
    } else {
      var q := b[..|b| - 1];
      assert (a + b)[..|a + b| - 1] == a + q;
      FirstCandidateAppend(a, q, c, n);
    }
  }

  lemma FirstCandidateSnoc(p: seq<Candidate>, x: Candidate, c: string, n: string)
    ensures FirstCandidate(p + [x], c, n)
         == if FirstCandidate(p, c, n).Some? then FirstCandidate(p, c, n)
            else if x.0 == c && x.1.name == n then Some(x.1) else None
  {
    assert (p + [x])[..|p|] == p;
  }

  /** What guarded pushes of `cs` into an empty list for category `c` have
      built: distinct names, a name present exactly when some candidate
      offered it, and each entry the first candidate offered under its name. */
  ghost predicate ListBuiltFrom(l: seq<Skill>, cs: seq<Candidate>, c: string) {
    && DistinctBy(l, SkillName)
    && (forall n :: HasName(l, n) <==> FirstCandidate(cs, c, n).Some?)
    && (forall s :: s in l ==> FirstCandidate(cs, c, s.name) == Some(s))
  }

  ghost predicate BuiltFrom(t: SkillTable, cs: seq<Candidate>) {
    forall c :: c in t ==> ListBuiltFrom(t[c], cs, c)
  }

  /** A candidate for another category leaves a list as it was. */
  lemma OtherCategory(l: seq<Skill>, p: seq<Candidate>, x: Candidate, c: string)
    requires x.0 != c && ListBuiltFrom(l, p, c)
    ensures ListBuiltFrom(l, p + [x], c)
  {
    forall n ensures FirstCandidate(p + [x], c, n) == FirstCandidate(p, c, n) {
      FirstCandidateSnoc(p, x, c, n);
    }
  }

  /** A candidate whose name the list already has is not pushed. */
  lemma NameTaken(l: seq<Skill>, p: seq<Candidate>, x: Candidate)
    requires HasName(l, x.1.name) && ListBuiltFrom(l, p, x.0)
    ensures ListBuiltFrom(l, p + [x], x.0)
  {
    forall n ensures FirstCandidate(p + [x], x.0, n) == FirstCandidate(p, x.0, n) {
      FirstCandidateSnoc(p, x, x.0, n);
    }
  }

  lemma HasNameSnoc(l: seq<Skill>, y: Skill, n: string)
    ensures HasName(l + [y], n) <==> HasName(l, n) || n == y.name
  {
    if HasName(l + [y], n) {
      var i :| 0 <= i < |l + [y]| && (l + [y])[i].name == n;
      if i < |l| { assert l[i].name == n; }
    }
    if HasName(l, n) {
      var i :| 0 <= i < |l| && l[i].name == n;
      assert (l + [y])[i].name == n;
    }
    if n == y.name {
      assert (l + [y])[|l|].name == n;
    }
  }

  /** A candidate with a new name is appended. */
  lemma NameFree(l: seq<Skill>, p: seq<Candidate>, x: Candidate)
    requires !HasName(l, x.1.name) && ListBuiltFrom(l, p, x.0)
    ensures ListBuiltFrom(l + [x.1], p + [x], x.0)
  {
    var c := x.0;
    var l' := l + [x.1];
    forall i, j | 0 <= i < j < |l'| ensures SkillName(l'[i]) != SkillName(l'[j]) {
      if j == |l| {
        assert l'[i] == l[i];
        assert HasName(l, l[i].name);
      } else {
        assert l'[i] == l[i] && l'[j] == l[j];
      }
    }
    forall n ensures HasName(l', n) <==> FirstCandidate(p + [x], c, n).Some? {
      HasNameSnoc(l, x.1, n);
      FirstCandidateSnoc(p, x, c, n);
    }
    forall s | s in l' ensures FirstCandidate(p + [x], c, s.name) == Some(s) {
      FirstCandidateSnoc(p, x, c, s.name);
      if s in l {
        var i :| 0 <= i < |l| && l[i] == s;
        assert HasName(l, s.name);
      }
    }
  }

  lemma PushStep(t: SkillTable, p: seq<Candidate>, x: Candidate)
    requires x.0 in t && BuiltFrom(t, p)
    ensures BuiltFrom(PushIfAbsent(t, x), p + [x])
  {
    var t' := PushIfAbsent(t, x);
    forall c | c in t' ensures ListBuiltFrom(t'[c], p + [x], c) {
      if c != x.0 {
        OtherCategory(t[c], p, x, c);
      } else if HasName(t[c], x.1.name) {
        NameTaken(t[c], p, x);
      } else {
        NameFree(t[c], p, x);
      }
    }
  }

  lemma {:induction false} PushAllBuilds(cs: seq<Candidate>)
    requires forall x :: x in cs ==> x.0 in EmptySkillTable
    ensures BuiltFrom(PushAll(EmptySkillTable, cs), cs)
  {
    if cs == [] {
      forall c | c in EmptySkillTable ensures ListBuiltFrom(EmptySkillTable[c], cs, c) {
        assert EmptySkillTable[c] == [];
      }
    } else {
      var p := cs[..|cs| - 1];
      var x := cs[|cs| - 1];
      assert p + [x] == cs;
      assert forall y :: y in p ==> y in cs;
      PushAllBuilds(p);
      PushStep(PushAll(EmptySkillTable, p), p, x);
    }
  }

  lemma PushedList(cs: seq<Candidate>, c: string)
    requires forall x :: x in cs ==> x.0 in EmptySkillTable
    requires c in EmptySkillTable
    ensures ListBuiltFrom(PushAll(EmptySkillTable, cs)[c], cs, c)
  {
    PushAllBuilds(cs);
  }

  /** `languageToSkillMapping`, given by its entries in declaration order. */
  type MappingTable = seq<(string, SkillMapping)>

  /** `additionalSkills`, given by its entries in declaration order. */
  type DeclaredTable = seq<(string, seq<DeclaredSkill>)>

  /** Every language of the table files under one of the six lists. */
  ghost predicate MapsIntoLists(table: MappingTable) {
    forall i :: 0 <= i < |table| ==> table[i].1.category in EmptySkillTable
  }

  /** Every declared category is one of the six lists. */
  ghost predicate DeclaresIntoLists(declared: DeclaredTable) {
    CategoriesOf(declared) <= EmptySkillTable.Keys
  }

  /** The language `e` is in the mapping table and files under `c` as `n`. */
  predicate MapsTo(table: MappingTable, e: (string, nat), c: string, n: string) {
    var m := Lookup(table, e.0);
    m.Some? && m.value.category == c && m.value.displayName == n
  }

  /** `languages[i]` is the first language that files under `c` as `n`. */
  ghost predicate FirstMapsTo(table: MappingTable, languages: LanguageMap, c: string, n: string, i: int) {
    && 0 <= i < |languages|
    && MapsTo(table, languages[i], c, n)
    && forall j :: 0 <= j < i ==> !MapsTo(table, languages[j], c, n)
  }

  ghost predicate DetectedAs(table: MappingTable, languages: LanguageMap, c: string, n: string) {
    exists i :: 0 <= i < |languages| && MapsTo(table, languages[i], c, n)
  }

  /** The skill a mapped language offers: its display name, at its preset
      level or the level its share of the bytes earns. */
  function DetectedSkill(table: MappingTable, e: (string, nat), totalBytes: nat): (s: Skill)
    requires Lookup(table, e.0).Some? && totalBytes > 0
    ensures s.name == Lookup(table, e.0).value.displayName && s.fromGitHub
  {
    var mapping := Lookup(table, e.0).value;
    Skill(mapping.displayName, DetectedLevel(mapping, e.1, totalBytes), true)
  }

  /** The skills the language loop offers, in enumeration order; languages
      missing from the mapping table offer none. */
  function DetectedCandidates(table: MappingTable, languages: LanguageMap, totalBytes: nat): (r: seq<Candidate>)
    requires |languages| > 0 ==> totalBytes > 0
    ensures forall x :: x in r ==>
      x.1.fromGitHub && exists i :: 0 <= i < |table| && table[i].1.category == x.0
  {
    if languages == [] then []
    else
      var e := languages[|languages| - 1];
      var earlier := DetectedCandidates(table, languages[..|languages| - 1], totalBytes);
      var found := Lookup(table, e.0);
      if found.Some? then
        LookupSpec(table, e.0);
        earlier + [(found.value.category, DetectedSkill(table, e, totalBytes))]
      else earlier
  }

  /** The first language of a prefix that maps to a name is the first of the
      whole map too. */
  lemma FirstMapsToExtends(table: MappingTable, languages: LanguageMap, k: nat, c: string, n: string, i: int)
    requires k <= |languages| && FirstMapsTo(table, languages[..k], c, n, i)
    ensures FirstMapsTo(table, languages, c, n, i)
  {
    assert forall j :: 0 <= j <= i ==> languages[j] == languages[..k][j];
  }

  /** The first candidate offered after one more language: the earlier one
      if any, else the new language's, when it maps to `n` under `c`. */
  lemma DetectedStep(table: MappingTable, languages: LanguageMap, totalBytes: nat, c: string, n: string)
    requires |languages| > 0 && totalBytes > 0
    ensures var k := |languages| - 1;
      var fp := FirstCandidate(DetectedCandidates(table, languages[..k], totalBytes), c, n);
      FirstCandidate(DetectedCandidates(table, languages, totalBytes), c, n)
        == if fp.Some? then fp
           else if MapsTo(table, languages[k], c, n) then Some(DetectedSkill(table, languages[k], totalBytes))
           else None
  {
    var k := |languages| - 1;
    var e := languages[k];
    var dp := DetectedCandidates(table, languages[..k], totalBytes);
    if Lookup(table, e.0).Some? {
      var y := (Lookup(table, e.0).value.category, DetectedSkill(table, e, totalBytes));
      FirstCandidateAppend(dp, [y], c, n);
      assert [y][..0] == [];
    }
  }

  lemma {:induction false} DetectedFirst(table: MappingTable, languages: LanguageMap, totalBytes: nat, c: string, n: string)
    requires |languages| > 0 ==> totalBytes > 0
    ensures var f := FirstCandidate(DetectedCandidates(table, languages, totalBytes), c, n);
      && (f.Some? <==> DetectedAs(table, languages, c, n))
      && (f.Some? ==> exists i :: FirstMapsTo(table, languages, c, n, i)
                        && f.value == DetectedSkill(table, languages[i], totalBytes))
  {
    if languages != [] {
      var k := |languages| - 1;
      var p := languages[..k];
      DetectedFirst(table, p, totalBytes, c, n);
      DetectedStep(table, languages, totalBytes, c, n);
      var fp := FirstCandidate(DetectedCandidates(table, p, totalBytes), c, n);
      var f := FirstCandidate(DetectedCandidates(table, languages, totalBytes), c, n);
      if fp.Some? {
        var i :| FirstMapsTo(table, p, c, n, i) && fp.value == DetectedSkill(table, p[i], totalBytes);
        FirstMapsToExtends(table, languages, k, c, n, i);
        assert p[i] == languages[i];
      } else if MapsTo(table, languages[k], c, n) {
        assert FirstMapsTo(table, languages, c, n, k) by {
          forall j | 0 <= j < k ensures !MapsTo(table, languages[j], c, n) {
            assert languages[j] == p[j];
          }
        }
      } else {
        forall i | 0 <= i < |languages| ensures !MapsTo(table, languages[i], c, n) {
          if i < k {
            assert languages[i] == p[i];
          }
        }
      }
    }
  }

  /** The candidate a declared skill of `category` gives. */
  function Offer(category: string, d: DeclaredSkill): Candidate {
    (category, Skill(d.0, d.1, false))
  }

  /** The skills one entry of `additionalSkills` offers, in order. */
  function CategoryCandidates(category: string, declared: seq<DeclaredSkill>): (r: seq<Candidate>)
    ensures |r| == |declared|
    ensures forall j :: 0 <= j < |declared| ==> r[j] == Offer(category, declared[j])
    ensures forall x :: x in r ==> x.0 == category
  {
    seq(|declared|, j requires 0 <= j < |declared| => Offer(category, declared[j]))
  }

  /** The skills the loop over `additionalSkills` offers, in order. */
  function AdditionalCandidates(entries: DeclaredTable): (r: seq<Candidate>)
    ensures forall x :: x in r ==> x.0 in CategoriesOf(entries)
  {
    if entries == [] then []
    else
      var last := entries[|entries| - 1];
      AdditionalCandidates(entries[..|entries| - 1]) + CategoryCandidates(last.0, last.1)
  }

  function CategoriesOf(entries: DeclaredTable): set<string> {
    set i | 0 <= i < |entries| :: entries[i].0
  }

  /** `entries` declares, under category `c`, the skill `d`. */
  ghost predicate DeclaresIn(entries: DeclaredTable, c: string, d: DeclaredSkill) {
    exists i, j :: 0 <= i < |entries| && 0 <= j < |entries[i].1| && entries[i].0 == c && entries[i].1[j] == d
  }

  lemma {:induction false} AdditionalCandidatesMember(entries: DeclaredTable, x: Candidate)
    ensures x in AdditionalCandidates(entries) <==> !x.1.fromGitHub && DeclaresIn(entries, x.0, (x.1.name, x.1.level))
  {
    if entries != [] {
      var p := entries[..|entries| - 1];
      var last := entries[|entries| - 1];
      assert AdditionalCandidates(entries) == AdditionalCandidates(p) + CategoryCandidates(last.0, last.1);
      AdditionalCandidatesMember(p, x);
      CategoryCandidatesMember(last.0, last.1, x);
      DeclaresInSnoc(entries, x.0, (x.1.name, x.1.level));
    }
  }

  lemma CategoryCandidatesMember(category: string, declared: seq<DeclaredSkill>, x: Candidate)
    ensures x in CategoryCandidates(category, declared)
      <==> x.0 == category && !x.1.fromGitHub && (x.1.name, x.1.level) in declared
  {
    var r := CategoryCandidates(category, declared);
    if x.0 == category && !x.1.fromGitHub && (x.1.name, x.1.level) in declared {
      var j :| 0 <= j < |declared| && declared[j] == (x.1.name, x.1.level);
      assert r[j] == x;
    }
  }

  /** What the last entry adds to the declarations. */
  lemma DeclaresInSnoc(entries: DeclaredTable, c: string, d: DeclaredSkill)
    requires entries != []
    ensures var p, last := entries[..|entries| - 1], entries[|entries| - 1];
      DeclaresIn(entries, c, d) <==> DeclaresIn(p, c, d) || (last.0 == c && d in last.1)
  {
    var p, last := entries[..|entries| - 1], entries[|entries| - 1];
    if DeclaresIn(entries, c, d) {
      var i, j :| 0 <= i < |entries| && 0 <= j < |entries[i].1| && entries[i].0 == c && entries[i].1[j] == d;
      if i < |p| {
        assert p[i] == entries[i];
      }
    }
    if DeclaresIn(p, c, d) {
      var i, j :| 0 <= i < |p| && 0 <= j < |p[i].1| && p[i].0 == c && p[i].1[j] == d;
      assert entries[i] == p[i];
    }
    if last.0 == c && d in last.1 {
      var j :| 0 <= j < |last.1| && last.1[j] == d;
      assert entries[|p|] == last;
    }
  }

  /** `entries` declares a skill named `n` under category `c`. */
  ghost predicate DeclaredAs(entries: DeclaredTable, c: string, n: string) {
    exists l :: DeclaresIn(entries, c, (n, l))
  }

  /** The first declared candidate for `c` named `n` exists exactly when one
      is declared, and is a declared skill. */
  lemma AdditionalFirst(entries: DeclaredTable, c: string, n: string)
    ensures var f := FirstCandidate(AdditionalCandidates(entries), c, n);
      && (f.Some? <==> DeclaredAs(entries, c, n))
      && (f.Some? ==> !f.value.fromGitHub && f.value.name == n && DeclaresIn(entries, c, (n, f.value.level)))
  {
    var cs := AdditionalCandidates(entries);
    var f := FirstCandidate(cs, c, n);
    if f.Some? {
      var k :| 0 <= k < |cs| && cs[k] == (c, f.value) && f.value.name == n;
      AdditionalCandidatesMember(entries, cs[k]);
    }
    if l :| DeclaresIn(entries, c, (n, l)) {
      var x := (c, Skill(n, l, false));
      AdditionalCandidatesMember(entries, x);
      var k :| 0 <= k < |cs| && cs[k] == x;
    }
  }

  /** Every skill offered, in the order `processGitHubSkills` offers them. */
  function AllCandidates(table: MappingTable, declared: DeclaredTable, languages: LanguageMap): (r: seq<Candidate>)
    requires |languages| > 0 ==> TotalBytes(languages) > 0
    requires MapsIntoLists(table) && DeclaresIntoLists(declared)
    ensures forall x :: x in r ==> x.0 in EmptySkillTable
  {
    DetectedCandidates(table, languages, TotalBytes(languages)) + AdditionalCandidates(declared)
  }

  /** The lists before the final sort. */
  function CollectedSkills(table: MappingTable, declared: DeclaredTable, languages: LanguageMap): (r: SkillTable)
    requires |languages| > 0 ==> TotalBytes(languages) > 0
    requires MapsIntoLists(table) && DeclaresIntoLists(declared)
    ensures r.Keys == EmptySkillTable.Keys
  {
    PushAll(EmptySkillTable, AllCandidates(table, declared, languages))
  }

  /** Each list stably sorted by non-increasing level. */
  function SortTable(t: SkillTable): (r: SkillTable)
    ensures r.Keys == t.Keys
  {
    map c | c in t :: SortDesc(t[c], LevelKey)
  }

  /** The result of `processGitHubSkills` over the given tables. */
  function ProcessedSkills(table: MappingTable, declared: DeclaredTable, languages: LanguageMap): (r: SkillTable)
    requires |languages| > 0 ==> TotalBytes(languages) > 0
    requires MapsIntoLists(table) && DeclaresIntoLists(declared)
    ensures r.Keys == EmptySkillTable.Keys
  {
    SortTable(CollectedSkills(table, declared, languages))
  }

  /** What one list of `processGitHubSkills` holds: distinct names sorted by
      non-increasing level; a name present exactly when a language maps to it
      or it is declared; a detected name taking the GitHub entry, the one the
      first language enumerated that maps to it offers; any other entry a
      declared skill with its declared level. */
  ghost predicate ListSpec(table: MappingTable, declared: DeclaredTable, languages: LanguageMap, c: string, l: seq<Skill>)
    requires |languages| > 0 ==> TotalBytes(languages) > 0
  {
    && DistinctBy(l, SkillName)
    && SortedDesc(l, LevelKey)
    && (forall n :: HasName(l, n) <==> DetectedAs(table, languages, c, n) || DeclaredAs(declared, c, n))
    && (forall s :: s in l ==> (s.fromGitHub <==> DetectedAs(table, languages, c, s.name)))
    && (forall s :: s in l && s.fromGitHub ==>
          exists i :: FirstMapsTo(table, languages, c, s.name, i)
            && s == DetectedSkill(table, languages[i], TotalBytes(languages)))
    && (forall s :: s in l && !s.fromGitHub ==> DeclaresIn(declared, c, (s.name, s.level)))
  }

  /** The first candidate offered for `c` under the name `n`. */
  lemma CandidateFacts(table: MappingTable, declared: DeclaredTable, languages: LanguageMap, c: string, n: string)
    requires |languages| > 0 ==> TotalBytes(languages) > 0
    requires MapsIntoLists(table) && DeclaresIntoLists(declared)
    ensures var f := FirstCandidate(AllCandidates(table, declared, languages), c, n);
      && (f.Some? <==> DetectedAs(table, languages, c, n) || DeclaredAs(declared, c, n))
      && (f.Some? ==> f.value.name == n && (f.value.fromGitHub <==> DetectedAs(table, languages, c, n)))
      && (f.Some? && f.value.fromGitHub ==>
            exists i :: FirstMapsTo(table, languages, c, n, i)
              && f.value == DetectedSkill(table, languages[i], TotalBytes(languages)))
      && (f.Some? && !f.value.fromGitHub ==> DeclaresIn(declared, c, (n, f.value.level)))
  {
    var total := TotalBytes(languages);
    FirstCandidateAppend(DetectedCandidates(table, languages, total), AdditionalCandidates(declared), c, n);
    DetectedFirst(table, languages, total, c, n);
    AdditionalFirst(declared, c, n);
  }

  /** Sorting keeps a list's members. */
  lemma SortKeepsMembers(l: seq<Skill>)
    ensures forall s :: s in SortDesc(l, LevelKey) <==> s in l
    ensures forall n :: HasName(SortDesc(l, LevelKey), n) <==> HasName(l, n)
  {
    var sl := SortDesc(l, LevelKey);
    forall s ensures s in sl <==> s in l {
      assert s in sl <==> s in multiset(sl);
    }
    forall n ensures HasName(sl, n) <==> HasName(l, n) {
      if HasName(sl, n) {
        var i :| 0 <= i < |sl| && sl[i].name == n;
        assert sl[i] in l;
      }
      if HasName(l, n) {
        var i :| 0 <= i < |l| && l[i].name == n;
        assert l[i] in sl;
      }
    }
  }

  /** Sorting a list built from the candidates gives a list meeting `ListSpec`. */
  lemma SortedBuiltList(table: MappingTable, declared: DeclaredTable, languages: LanguageMap, c: string, l: seq<Skill>)
    requires |languages| > 0 ==> TotalBytes(languages) > 0
    requires MapsIntoLists(table) && DeclaresIntoLists(declared)
    requires ListBuiltFrom(l, AllCandidates(table, declared, languages), c)
    ensures ListSpec(table, declared, languages, c, SortDesc(l, LevelKey))
  {
    var sl := SortDesc(l, LevelKey);
    SortKeepsDistinct(l, LevelKey, SkillName);
    SortKeepsMembers(l);
    forall n ensures HasName(sl, n) <==> DetectedAs(table, languages, c, n) || DeclaredAs(declared, c, n) {
      CandidateFacts(table, declared, languages, c, n);
    }
    forall s | s in sl
      ensures s.fromGitHub <==> DetectedAs(table, languages, c, s.name)
      ensures s.fromGitHub ==>
        exists i :: FirstMapsTo(table, languages, c, s.name, i)
          && s == DetectedSkill(table, languages[i], TotalBytes(languages))
      ensures !s.fromGitHub ==> DeclaresIn(declared, c, (s.name, s.level))
    {
      CandidateFacts(table, declared, languages, c, s.name);
    }
  }

  lemma ProcessedListSpec(table: MappingTable, declared: DeclaredTable, languages: LanguageMap, c: string)
    requires |languages| > 0 ==> TotalBytes(languages) > 0
    requires MapsIntoLists(table) && DeclaresIntoLists(declared)
    requires c in EmptySkillTable
    ensures c in ProcessedSkills(table, declared, languages)
    ensures ListSpec(table, declared, languages, c, ProcessedSkills(table, declared, languages)[c])
  {
    var l := CollectedSkills(table, declared, languages)[c];
    PushedList(AllCandidates(table, declared, languages), c);
    SortedBuiltList(table, declared, languages, c, l);
    assert ProcessedSkills(table, declared, languages)[c] == SortDesc(l, LevelKey);
  }

  /** When a detected language and a declared skill share a name, the list
      holds one skill of that name, the detected one. */
  lemma DetectedSkillWins(table: MappingTable, declared: DeclaredTable, languages: LanguageMap, c: string, n: string)
    requires |languages| > 0 ==> TotalBytes(languages) > 0
    requires MapsIntoLists(table) && DeclaresIntoLists(declared)
    requires DetectedAs(table, languages, c, n) && DeclaredAs(declared, c, n)
    ensures c in ProcessedSkills(table, declared, languages)
    ensures var l := ProcessedSkills(table, declared, languages)[c];
      exists i :: 0 <= i < |l| && l[i].name == n && l[i].fromGitHub
        && forall j :: 0 <= j < |l| && j != i ==> l[j].name != n
  {
    var i0 :| 0 <= i0 < |languages| && MapsTo(table, languages[i0], c, n);
    LookupSpec(table, languages[i0].0);
    ProcessedListSpec(table, declared, languages, c);
    DetectedOnceInList(table, declared, languages, c, n, ProcessedSkills(table, declared, languages)[c]);
  }

  /** In a list meeting `ListSpec`, a detected name is held once, by a
      skill from the hosting data. */
  lemma DetectedOnceInList(table: MappingTable, declared: DeclaredTable, languages: LanguageMap, c: string, n: string, l: seq<Skill>)
    requires |languages| > 0 ==> TotalBytes(languages) > 0
    requires DetectedAs(table, languages, c, n) && ListSpec(table, declared, languages, c, l)
    ensures exists i :: 0 <= i < |l| && l[i].name == n && l[i].fromGitHub
                   && forall j :: 0 <= j < |l| && j != i ==> l[j].name != n
  {
    assert HasName(l, n);
    var i :| 0 <= i < |l| && l[i].name == n;
    assert l[i] in l;
    forall j | 0 <= j < |l| && j != i ensures l[j].name != n {
      if j < i { assert SkillName(l[j]) != SkillName(l[i]); }
      else { assert SkillName(l[i]) != SkillName(l[j]); }
    }
  }

  /** A list meeting `ListSpec` holds the skill the first language
      enumerated that maps to a name offers. */
  lemma FirstLanguageInList(table: MappingTable, declared: DeclaredTable, languages: LanguageMap, c: string, n: string, i: nat, l: seq<Skill>)
    requires |languages| > 0 ==> TotalBytes(languages) > 0
    requires FirstMapsTo(table, languages, c, n, i) && ListSpec(table, declared, languages, c, l)
    ensures DetectedSkill(table, languages[i], TotalBytes(languages)) in l
  {
    assert HasName(l, n);
    var k :| 0 <= k < |l| && l[k].name == n;
    assert l[k] in l;
    var i' :| FirstMapsTo(table, languages, c, n, i')
      && l[k] == DetectedSkill(table, languages[i'], TotalBytes(languages));
    assert MapsTo(table, languages[i'], c, n) && MapsTo(table, languages[i], c, n);
    assert i' == i;
  }

  /** The tables of the portfolio file every skill under one of the six lists. */
  lemma PortfolioTablesFit()
    ensures MapsIntoLists(LanguageSkillEntries)
    ensures DeclaresIntoLists(AdditionalSkills)
    ensures NoPresetLevels(LanguageSkillEntries)
  {
    assert AllMapped(LanguageSkillEntries);
    SkillMappingWellFormed();
    EmptySkillTableKeys();
    AdditionalSkillsWellFormed();
  }

  /** The lists the skills section shows for the given language totals. */
  function GitHubSkills(languages: LanguageMap): (r: SkillTable)
    requires |languages| > 0 ==> TotalBytes(languages) > 0
    ensures r.Keys == set c | c in SkillCategories
  {
    PortfolioTablesFit();
    EmptySkillTableKeys();
    ProcessedSkills(LanguageSkillEntries, AdditionalSkills, languages)
  }

  /** The skill the first language enumerated that maps to `n` offers is
      in the processed list of `c`. */
  lemma DetectedSkillListed(table: MappingTable, declared: DeclaredTable, languages: LanguageMap, c: string, n: string, i: nat)
    requires |languages| > 0 ==> TotalBytes(languages) > 0
    requires MapsIntoLists(table) && DeclaresIntoLists(declared)
    requires FirstMapsTo(table, languages, c, n, i)
    ensures c in ProcessedSkills(table, declared, languages)
    ensures DetectedSkill(table, languages[i], TotalBytes(languages)) in ProcessedSkills(table, declared, languages)[c]
  {
    LookupSpec(table, languages[i].0);
    ProcessedListSpec(table, declared, languages, c);
    FirstLanguageInList(table, declared, languages, c, n, i, ProcessedSkills(table, declared, languages)[c]);
  }

  /** No language of the table carries a preset level. */
  ghost predicate NoPresetLevels(table: MappingTable) {
    forall i :: 0 <= i < |table| ==> table[i].1.level.None?
  }

  /** Without preset levels, a detected skill's level is the one its byte
      share earns. */
  lemma DetectedSkillLevel(table: MappingTable, e: (string, nat), totalBytes: nat)
    requires NoPresetLevels(table) && Lookup(table, e.0).Some? && totalBytes > 0
    ensures DetectedSkill(table, e, totalBytes)
         == Skill(Lookup(table, e.0).value.displayName, CalculateSkillLevel(e.1, totalBytes), true)
  {
    LookupSpec(table, e.0);
  }

  /** With no preset levels, a detected skill is listed with the level the
      byte share of the first language enumerated that maps to it earns. */
  lemma FirstLanguageGivesLevel(table: MappingTable, declared: DeclaredTable, languages: LanguageMap, c: string, n: string, i: nat)
    requires |languages| > 0 ==> TotalBytes(languages) > 0
    requires MapsIntoLists(table) && DeclaresIntoLists(declared) && NoPresetLevels(table)
    requires FirstMapsTo(table, languages, c, n, i)
    ensures c in ProcessedSkills(table, declared, languages)
    ensures Skill(n, CalculateSkillLevel(languages[i].1, TotalBytes(languages)), true)
         in ProcessedSkills(table, declared, languages)[c]
  {
    DetectedSkillListed(table, declared, languages, c, n, i);
    DetectedSkillLevel(table, languages[i], TotalBytes(languages));
  }

  /** Of two languages filing under the same name, the first gives the
      entry its level. */
  lemma FirstOfTwoGivesLevel(table: MappingTable, declared: DeclaredTable, a: (string, nat), b: (string, nat), c: string, n: string)
    requires MapsIntoLists(table) && DeclaresIntoLists(declared) && NoPresetLevels(table)
    requires a.1 + b.1 > 0 && MapsTo(table, a, c, n)
    ensures TotalBytes([a, b]) == a.1 + b.1
    ensures c in ProcessedSkills(table, declared, [a, b])
    ensures Skill(n, CalculateSkillLevel(a.1, a.1 + b.1), true) in ProcessedSkills(table, declared, [a, b])[c]
  {
    var languages: LanguageMap := [a, b];
    assert TotalBytes(languages) == a.1 + b.1 by {
      assert languages[..1] == [a];
      assert [a][..0] == [];
      assert TotalBytes(languages[..1]) == a.1;
    }
    assert FirstMapsTo(table, languages, c, n, 0);
    FirstLanguageGivesLevel(table, declared, languages, c, n, 0);
  }

  lemma HtmlMapping()
    ensures Lookup(LanguageSkillEntries, "HTML") == Some(SkillMapping("frontend", "HTML/CSS", None))
  {
  }

  /** HTML and CSS both file under "HTML/CSS": the first of them enumerated
      gives the entry, with its own level. */
  lemma HtmlBeforeCss(html: nat, css: nat)
    requires html + css > 0
    ensures TotalBytes([("HTML", html), ("CSS", css)]) == html + css
    ensures "frontend" in GitHubSkills([("HTML", html), ("CSS", css)])
    ensures Skill("HTML/CSS", CalculateSkillLevel(html, html + css), true)
         in GitHubSkills([("HTML", html), ("CSS", css)])["frontend"]
  {
    PortfolioTablesFit();
    HtmlMapping();
    FirstOfTwoGivesLevel(LanguageSkillEntries, AdditionalSkills, ("HTML", html), ("CSS", css), "frontend", "HTML/CSS");
  }

  lemma {:induction false} PushAllAppend(t: SkillTable, a: seq<Candidate>, b: seq<Candidate>)
    requires forall x :: x in a + b ==> x.0 in t
    ensures PushAll(t, a + b) == PushAll(PushAll(t, a), b)
  {
    if b == [] {
      assert a + b == a;
    } else {
      var q := b[..|b| - 1];
      assert (a + b)[..|a + b| - 1] == a + q;
      PushAllAppend(t, a, q);
    }
  }

  /** One more language adds its skill, if mapped, to the candidates. */
  lemma DetectedCandidatesSnoc(table: MappingTable, languages: LanguageMap, i: nat, totalBytes: nat)
    requires i < |languages| && totalBytes > 0 && MapsIntoLists(table)
    ensures var found := Lookup(table, languages[i].0);
      && (found.Some? ==> found.value.category in EmptySkillTable)
      && DetectedCandidates(table, languages[..i + 1], totalBytes)
         == if found.Some? then
              DetectedCandidates(table, languages[..i], totalBytes)
                + [(found.value.category, DetectedSkill(table, languages[i], totalBytes))]
            else DetectedCandidates(table, languages[..i], totalBytes)
  {
    assert languages[..i + 1][..i] == languages[..i];
    LookupSpec(table, languages[i].0);
  }

  lemma PushAllSnoc(t: SkillTable, cs: seq<Candidate>, x: Candidate)
    requires forall y :: y in cs ==> y.0 in t
    requires x.0 in t
    ensures PushAll(t, cs + [x]) == PushIfAbsent(PushAll(t, cs), x)
  {
    assert (cs + [x])[..|cs|] == cs;
  }

  /** The loop over the languages: each mapped language offers its skill. */
  method DetectSkills(table: MappingTable, languages: LanguageMap, totalBytes: nat) returns (t: SkillTable)
    requires |languages| > 0 ==> totalBytes > 0
    requires MapsIntoLists(table)
    ensures t == PushAll(EmptySkillTable, DetectedCandidates(table, languages, totalBytes))
  {
    t := EmptySkillTable;
    var i := 0;
    while i < |languages|
      invariant 0 <= i <= |languages|
      invariant t == PushAll(EmptySkillTable, DetectedCandidates(table, languages[..i], totalBytes))
    {
      var (language, bytes) := languages[i];
      DetectedCandidatesSnoc(table, languages, i, totalBytes);
      var found := Lookup(table, language);
      if found.Some? {
        var mapping := found.value;
        var level := DetectedLevel(mapping, bytes, totalBytes);
        var category := mapping.category;
        PushAllSnoc(EmptySkillTable, DetectedCandidates(table, languages[..i], totalBytes),
                    (category, DetectedSkill(table, languages[i], totalBytes)));
        if !HasName(t[category], mapping.displayName) {
          t := t[category := t[category] + [Skill(mapping.displayName, level, true)]];
        }
      }
      i := i + 1;
    }
    assert languages[..i] == languages;
  }

  /** The inner loop over one category's declared skills. */
  method AddDeclared(t: SkillTable, category: string, declared: seq<DeclaredSkill>) returns (r: SkillTable)
    requires category in t
    ensures r == PushAll(t, CategoryCandidates(category, declared))
  {
    r := t;
    var j := 0;
    while j < |declared|
      invariant 0 <= j <= |declared|
      invariant r.Keys == t.Keys
      invariant r == PushAll(t, CategoryCandidates(category, declared[..j]))
    {
      var (name, level) := declared[j];
      ghost var offered := CategoryCandidates(category, declared[..j]);
      assert CategoryCandidates(category, declared[..j + 1]) == offered + [(category, Skill(name, level, false))];
      if !HasName(r[category], name) {
        r := r[category := r[category] + [Skill(name, level, false)]];
      }
      j := j + 1;
    }
    assert declared[..j] == declared;
  }

  /** The outer loop over the declared categories. */
  method AddAllDeclared(t: SkillTable, entries: DeclaredTable) returns (r: SkillTable)
    requires CategoriesOf(entries) <= t.Keys
    ensures r == PushAll(t, AdditionalCandidates(entries))
  {
    r := t;
    var k := 0;
    while k < |entries|
      invariant 0 <= k <= |entries|
      invariant r.Keys == t.Keys
      invariant r == PushAll(t, AdditionalCandidates(entries[..k]))
    {
      var (category, declared) := entries[k];
      assert entries[..k + 1][..k] == entries[..k];
      ghost var next := CategoryCandidates(category, declared);
      assert AdditionalCandidates(entries[..k + 1]) == AdditionalCandidates(entries[..k]) + next;
      PushAllAppend(t, AdditionalCandidates(entries[..k]), next);
      r := AddDeclared(r, category, declared);
      k := k + 1;
    }
    assert entries[..k] == entries;
  }

  /** The values under the first `m` keys are `f` of the original ones, the
      others untouched. */
  ghost predicate UpdatedUpTo<K, V>(t: map<K, V>, r: map<K, V>, keys: seq<K>, m: int, f: V -> V) {
    && 0 <= m <= |keys|
    && r.Keys == t.Keys
    && (forall k :: 0 <= k < |keys| ==> keys[k] in t)
    && (forall k :: 0 <= k < m ==> r[keys[k]] == f(t[keys[k]]))
    && (forall k :: m <= k < |keys| ==> r[keys[k]] == t[keys[k]])
  }

  lemma UpdateStep<K, V>(t: map<K, V>, r: map<K, V>, keys: seq<K>, m: int, f: V -> V)
    requires forall i, j :: 0 <= i < j < |keys| ==> keys[i] != keys[j]
    requires UpdatedUpTo(t, r, keys, m, f) && m < |keys|
    ensures UpdatedUpTo(t, r[keys[m] := f(r[keys[m]])], keys, m + 1, f)
  {
    var c := keys[m];
    var r' := r[c := f(r[c])];
    assert r[c] == t[c];
    assert r'.Keys == t.Keys;
    forall k | 0 <= k < m + 1 ensures r'[keys[k]] == f(t[keys[k]]) {
      if k < m {
        assert keys[k] != c;
      }
    }
    forall k | m + 1 <= k < |keys| ensures r'[keys[k]] == t[keys[k]] {
      assert keys[k] != c;
    }
  }

  function SortLevels(l: seq<Skill>): seq<Skill> {
    SortDesc(l, LevelKey)
  }

  /** The final loop: every list sorted by level, highest first. */
  method SortLists(t: SkillTable, keys: seq<string>) returns (r: SkillTable)
    requires forall c :: c in t <==> c in keys
    requires forall i, j :: 0 <= i < j < |keys| ==> keys[i] != keys[j]
    ensures r == SortTable(t)
  {
    r := t;
    var m := 0;
    while m < |keys|
      invariant UpdatedUpTo(t, r, keys, m, SortLevels)
    {
      var c := keys[m];
      UpdateStep(t, r, keys, m, SortLevels);
      r := r[c := SortLevels(r[c])];
      m := m + 1;
    }
    SortedEveryKey(t, r, keys);
  }

  /** A table whose every key's list is the sorted original is the sorted table. */
  lemma SortedEveryKey(t: SkillTable, r: SkillTable, keys: seq<string>)
    requires forall c :: c in t <==> c in keys
    requires r.Keys == t.Keys
    requires forall k :: 0 <= k < |keys| ==> r[keys[k]] == SortDesc(t[keys[k]], LevelKey)
    ensures r == SortTable(t)
  {
    forall c | c in t ensures r[c] == SortDesc(t[c], LevelKey) {
      var k :| 0 <= k < |keys| && keys[k] == c;
    }
  }

  /** `processGitHubSkills`: detected languages first, then the declared
      skills, each pushed only if its list has no skill of that name, then
      every list sorted by level. */
  method ProcessGitHubSkills(languages: LanguageMap) returns (skills: SkillTable)
    requires |languages| > 0 ==> TotalBytes(languages) > 0
    ensures skills == GitHubSkills(languages)
  {
    PortfolioTablesFit();
    EmptySkillTableKeys();
    var totalBytes := TotalBytes(languages);
    var processed := DetectSkills(LanguageSkillEntries, languages, totalBytes);
    ghost var detected := DetectedCandidates(LanguageSkillEntries, languages, totalBytes);
    processed := AddAllDeclared(processed, AdditionalSkills);
    ghost var all := AllCandidates(LanguageSkillEntries, AdditionalSkills, languages);
    assert detected + AdditionalCandidates(AdditionalSkills) == all;
    PushAllAppend(EmptySkillTable, detected, AdditionalCandidates(AdditionalSkills));
    assert processed == CollectedSkills(LanguageSkillEntries, AdditionalSkills, languages);
    SkillCategoriesDistinct();
    skills := SortLists(processed, SkillCategories);
  }
}
