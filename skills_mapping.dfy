/** Skill tables and the derived skill level (src/utils/skillsMapping.ts). */
module SkillsMapping {
  import opened Common

  /** How a detected language shows up among the skills. `level` is the
      optional preset; absent (`None`) in every entry of the table. */
  datatype SkillMapping = SkillMapping(category: string, displayName: string, level: Option<int>)

  /** The categories `languageToSkillMapping` files languages under. */
  const MappedSkillCategories: set<string> := {"frontend", "backend", "database", "mobile", "cloud"}

  /** `languageToSkillMapping`, as its entries in declaration order. */
  const LanguageSkillEntries: seq<(string, SkillMapping)> := [
    ("JavaScript", SkillMapping("frontend", "JavaScript", None)),
    ("TypeScript", SkillMapping("frontend", "TypeScript", None)),
    ("HTML", SkillMapping("frontend", "HTML/CSS", None)),
    ("CSS", SkillMapping("frontend", "HTML/CSS", None)),
    ("Vue", SkillMapping("frontend", "Vue.js", None)),
    ("Svelte", SkillMapping("frontend", "Svelte", None)),
    ("Python", SkillMapping("backend", "Python", None)),
    ("Java", SkillMapping("backend", "Java", None)),
    ("C#", SkillMapping("backend", "C#", None)),
    ("Go", SkillMapping("backend", "Go", None)),
    ("Rust", SkillMapping("backend", "Rust", None)),
    ("PHP", SkillMapping("backend", "PHP", None)),
    ("Ruby", SkillMapping("backend", "Ruby", None)),
    ("C++", SkillMapping("backend", "C++", None)),
    ("C", SkillMapping("backend", "C", None)),
    ("Kotlin", SkillMapping("mobile", "Kotlin", None)),
    ("Swift", SkillMapping("mobile", "Swift", None)),
    ("SQL", SkillMapping("database", "SQL", None)),
    ("PLpgSQL", SkillMapping("database", "PostgreSQL", None)),
    ("TSQL", SkillMapping("database", "SQL Server", None)),
    ("Shell", SkillMapping("cloud", "Shell Scripting", None)),
    ("PowerShell", SkillMapping("cloud", "PowerShell", None)),
    ("Dockerfile", SkillMapping("cloud", "Docker", None)),
    ("YAML", SkillMapping("cloud", "YAML/Config", None)),
    ("HCL", SkillMapping("cloud", "Terraform", None)),
    ("Dart", SkillMapping("mobile", "Flutter/Dart", None)),
    ("Objective-C", SkillMapping("mobile", "Objective-C", None)),
    ("Jupyter Notebook", SkillMapping("backend", "Data Science", None)),
    ("R", SkillMapping("backend", "R", None)),
    ("MATLAB", SkillMapping("backend", "MATLAB", None))
  ]

  /** The value stored under `key` in an object given by its entries. */
  function Lookup<V>(entries: seq<(string, V)>, key: string): (r: Option<V>)
    ensures r.None? ==> forall i :: 0 <= i < |entries| ==> entries[i].0 != key
  {
    if entries == [] then None
    else if entries[0].0 == key then Some(entries[0].1)
    else Lookup(entries[1..], key)
  }

  /** A lookup finds a value exactly when some entry has the key, and the
      value it finds is stored under that key. */
  lemma {:induction false} LookupSpec<V>(entries: seq<(string, V)>, key: string)
    ensures Lookup(entries, key).Some? <==> exists i :: 0 <= i < |entries| && entries[i].0 == key
    ensures Lookup(entries, key).Some? ==>
      exists i :: 0 <= i < |entries| && entries[i] == (key, Lookup(entries, key).value)
  {
    if entries != [] && entries[0].0 != key {
      LookupSpec(entries[1..], key);
      assert forall i :: 1 <= i < |entries| ==> entries[i] == entries[1..][i - 1];
    }
  }

  /** `languageToSkillMapping[language]`, absent for unmapped languages. */
  function SkillFor(language: string): (m: Option<SkillMapping>)
    ensures m.None? <==> forall i :: 0 <= i < |LanguageSkillEntries| ==> LanguageSkillEntries[i].0 != language
  {
    LookupSpec(LanguageSkillEntries, language);
    Lookup(LanguageSkillEntries, language)
  }

  /** A hand-declared skill: name and level. */
  type DeclaredSkill = (string, int)

  /** `additionalSkills`, as its entries in declaration order. */
  const AdditionalSkills: seq<(string, seq<DeclaredSkill>)> := [
    ("frontend", [("React", 95), ("Next.js", 85), ("Tailwind CSS", 90), ("Sass/SCSS", 85)]),
    ("backend", [("Node.js", 90), ("Express.js", 88), ("GraphQL", 82), ("REST APIs", 95),
                 ("Microservices", 80)]),
    ("database", [("PostgreSQL", 88), ("MongoDB", 85), ("Redis", 80), ("Prisma", 85),
                  ("Supabase", 90), ("Firebase", 82)]),
    ("mobile", [("React Native", 85), ("Expo", 88), ("Mobile UI/UX", 85)]),
    ("cloud", [("AWS", 85), ("Docker", 88), ("Kubernetes", 75), ("CI/CD", 85),
               ("Monitoring", 82)]),
    ("security", [("Jest", 90), ("Cypress", 85), ("Unit Testing", 95), ("OAuth/JWT", 88),
                  ("Security Audits", 80), ("OWASP", 78)])
  ]

  /** The keys of the record `processGitHubSkills` builds, in order. */
  const SkillCategories: seq<string> := ["frontend", "backend", "database", "mobile", "cloud", "security"]

  /** Every entry files its language under a mapped category, with no preset level. */
  ghost predicate AllMapped(entries: seq<(string, SkillMapping)>) {
    forall i :: 0 <= i < |entries| ==>
      entries[i].1.category in MappedSkillCategories && entries[i].1.level.None?
  }

  lemma {:induction false} LookupAllMapped(entries: seq<(string, SkillMapping)>, key: string)
    requires AllMapped(entries)
    ensures Lookup(entries, key).Some? ==>
      Lookup(entries, key).value.category in MappedSkillCategories && Lookup(entries, key).value.level.None?
  {
    if entries != [] && entries[0].0 != key {
      assert forall i :: 0 <= i < |entries| - 1 ==> entries[1..][i] == entries[i + 1];
      LookupAllMapped(entries[1..], key);
    }
  }

  lemma SkillMappingWellFormed()
    ensures forall l :: SkillFor(l).Some? ==> SkillFor(l).value.category in MappedSkillCategories
    ensures forall l :: SkillFor(l).Some? ==> SkillFor(l).value.level.None?
    ensures MappedSkillCategories <= set c | c in SkillCategories
  {
    assert AllMapped(LanguageSkillEntries);
    forall l | SkillFor(l).Some?
      ensures SkillFor(l).value.category in MappedSkillCategories && SkillFor(l).value.level.None?
    {
      LookupAllMapped(LanguageSkillEntries, l);
    }
  }

  lemma SkillCategoriesDistinct()
    ensures forall i, j :: 0 <= i < j < |SkillCategories| ==> SkillCategories[i] != SkillCategories[j]
  {
  }

  lemma AdditionalSkillsWellFormed()
    ensures |AdditionalSkills| == |SkillCategories|
    ensures forall i :: 0 <= i < |AdditionalSkills| ==> AdditionalSkills[i].0 == SkillCategories[i]
    ensures forall i, j, k :: 0 <= i < |AdditionalSkills| && 0 <= j < k < |AdditionalSkills[i].1|
              ==> AdditionalSkills[i].1[j].0 != AdditionalSkills[i].1[k].0
  {
  }

  /** `Math.round(x)` for a real `x`: the nearest integer, halves rounded up. */
  function Round(x: real): (n: int)
    ensures n as real - 0.5 <= x < n as real + 0.5
  {
    (x + 0.5).Floor
  }

  /** `calculateSkillLevel`: `60 + 0.35 * (percentage of the bytes)`, rounded
      and clamped to [60, 95]. */
  function CalculateSkillLevel(languageBytes: nat, totalBytes: nat): (level: int)
    requires totalBytes > 0
    ensures 60 <= level <= 95
  {
    var percentage := (languageBytes as real / totalBytes as real) * 100.0;
    var rounded := Round(60.0 + percentage * 0.35);
    if rounded < 60 then 60 else if rounded > 95 then 95 else rounded
  }

  lemma SkillLevelOfNothing(totalBytes: nat)
    requires totalBytes > 0
    ensures CalculateSkillLevel(0, totalBytes) == 60
  {
  }

  lemma SkillLevelOfEverything(totalBytes: nat)
    requires totalBytes > 0
    ensures CalculateSkillLevel(totalBytes, totalBytes) == 95
  {
    assert totalBytes as real / totalBytes as real == 1.0;
    assert Round(60.0 + 1.0 * 100.0 * 0.35) == 95;
  }

  lemma SkillLevelMonotone(b1: nat, b2: nat, totalBytes: nat)
    requires totalBytes > 0 && b1 <= b2
    ensures CalculateSkillLevel(b1, totalBytes) <= CalculateSkillLevel(b2, totalBytes)
  {
    var x1 := 60.0 + (b1 as real / totalBytes as real) * 100.0 * 0.35;
    var x2 := 60.0 + (b2 as real / totalBytes as real) * 100.0 * 0.35;
    assert b1 as real / totalBytes as real <= b2 as real / totalBytes as real;
    assert x1 <= x2;
    assert Round(x1) <= Round(x2);
  }

  /** `mapping.level || calculateSkillLevel(bytes, totalBytes)`: a preset
      level of 0 counts as absent. */
  function DetectedLevel(mapping: SkillMapping, bytes: nat, totalBytes: nat): (level: int)
    requires totalBytes > 0
    ensures mapping.level.Some? && mapping.level.value != 0 ==> level == mapping.level.value
    ensures mapping.level.None? || mapping.level.value == 0 ==> 60 <= level <= 95
  {
    if mapping.level.Some? && mapping.level.value != 0 then mapping.level.value
    else CalculateSkillLevel(bytes, totalBytes)
  }

  lemma DetectedLevelIsDerived(lang: string, bytes: nat, totalBytes: nat)
    requires totalBytes > 0 && SkillFor(lang).Some?
    ensures DetectedLevel(SkillFor(lang).value, bytes, totalBytes) == CalculateSkillLevel(bytes, totalBytes)
    ensures 60 <= DetectedLevel(SkillFor(lang).value, bytes, totalBytes) <= 95
  {
    SkillMappingWellFormed();
  }
}
