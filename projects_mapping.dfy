/** Project classification, tech-stack extraction and image choice
    (src/utils/projectsMapping.ts). */
module ProjectsMapping {
  import opened Common
  import opened Text
  import opened StableSort

  /** The six categories a project can be filed under. */
  const ProjectCategories: set<string> :=
    {"frontend", "backend", "mobile", "devops", "data", "fullstack"}

  /** `languageToCategory` */
  const LanguageToCategory: map<string, string> := map[
    "JavaScript" := "frontend", "TypeScript" := "frontend", "React" := "frontend",
    "Vue" := "frontend", "Angular" := "frontend", "Svelte" := "frontend",
    "HTML" := "frontend", "CSS" := "frontend", "SCSS" := "frontend",
    "Python" := "backend", "Node.js" := "backend", "Java" := "backend",
    "C#" := "backend", "Go" := "backend", "Rust" := "backend", "PHP" := "backend",
    "Ruby" := "backend", "C++" := "backend", "C" := "backend",
    "Swift" := "mobile", "Kotlin" := "mobile", "Dart" := "mobile",
    "Objective-C" := "mobile", "React Native" := "mobile", "Flutter" := "mobile",
    "Shell" := "devops", "Dockerfile" := "devops", "YAML" := "devops",
    "HCL" := "devops", "PowerShell" := "devops",
    "Jupyter Notebook" := "data", "R" := "data", "MATLAB" := "data", "SQL" := "data"
  ]

  /** `topicCategories`, keyed by lower-case topic. */
  const TopicCategories: map<string, string> := map[
    "react" := "frontend", "vue" := "frontend", "angular" := "frontend",
    "frontend" := "frontend", "web" := "frontend", "ui" := "frontend",
    "dashboard" := "frontend",
    "api" := "backend", "backend" := "backend", "server" := "backend",
    "microservice" := "backend", "database" := "backend",
    "mobile" := "mobile", "ios" := "mobile", "android" := "mobile",
    "react-native" := "mobile", "flutter" := "mobile",
    "devops" := "devops", "docker" := "devops", "kubernetes" := "devops",
    "ci-cd" := "devops", "deployment" := "devops",
    "machine-learning" := "data", "data-science" := "data", "ai" := "data",
    "analytics" := "data"
  ]

  lemma TablesUseProjectCategories()
    ensures forall l :: l in LanguageToCategory ==> LanguageToCategory[l] in ProjectCategories
    ensures forall t :: t in TopicCategories ==> TopicCategories[t] in ProjectCategories
  {
  }

  /** `topicCategories[topic.toLowerCase()]` */
  function TopicCategory(topic: string): (r: Option<string>)
    ensures r.Some? ==> r.value in ProjectCategories
  {
    TablesUseProjectCategories();
    var t := ToLower(topic);
    if t in TopicCategories then Some(TopicCategories[t]) else None
  }

  /** The loop over the topics that returns at the first one found in the table. */
  function FirstTopicCategory(topics: seq<string>): (r: Option<string>)
    ensures r.None? <==> forall i :: 0 <= i < |topics| ==> TopicCategory(topics[i]).None?
    ensures r.Some? ==> r.value in ProjectCategories
    ensures r.Some? ==> exists i :: 0 <= i < |topics| && TopicCategory(topics[i]) == r
                                    && forall j :: 0 <= j < i ==> TopicCategory(topics[j]).None?
  {
    if topics == [] then None
    else if TopicCategory(topics[0]).Some? then TopicCategory(topics[0])
    else
      var r := FirstTopicCategory(topics[1..]);
      assert forall i :: 1 <= i < |topics| ==> topics[i] == topics[1..][i - 1];
      assert r.Some? ==> exists i :: 1 <= i < |topics| && TopicCategory(topics[i]) == r
                                      && forall j :: 0 <= j < i ==> TopicCategory(topics[j]).None? by {
        if r.Some? {
          var i :| 0 <= i < |topics[1..]| && TopicCategory(topics[1..][i]) == r
                   && forall j :: 0 <= j < i ==> TopicCategory(topics[1..][j]).None?;
          assert TopicCategory(topics[i + 1]) == r;
        }
      }
      r
  }

  /** `languageToCategory[lang] || 'fullstack'` */
  function LanguageCategory(lang: string): (r: string)
    ensures r in ProjectCategories
    ensures lang in LanguageToCategory ==> r == LanguageToCategory[lang]
    ensures lang !in LanguageToCategory ==> r == "fullstack"
  {
    TablesUseProjectCategories();
    if lang in LanguageToCategory then LanguageToCategory[lang] else "fullstack"
  }

  /** Sort key of a language entry: its byte count. */
  function BytesKey(e: (string, nat)): real { e.1 as real }

  /** `determineProjectCategory`: the first topic found in the topic table
      decides; otherwise the language with the most bytes (the head of a
      stable descending sort); otherwise "fullstack". */
  function DetermineProjectCategory(languages: LanguageMap, topics: seq<string>): (r: string)
    ensures r in ProjectCategories
  {
    match FirstTopicCategory(topics)
    case Some(c) => c
    case None =>
      if |languages| > 0 then LanguageCategory(SortDesc(languages, BytesKey)[0].0)
      else "fullstack"
  }

  lemma {:induction false} CategoryFromFirstMatchingTopic(languages: LanguageMap, topics: seq<string>, i: nat)
    requires i < |topics| && TopicCategory(topics[i]).Some?
    requires forall j :: 0 <= j < i ==> TopicCategory(topics[j]).None?
    ensures DetermineProjectCategory(languages, topics) == TopicCategory(topics[i]).value
  {
    var r := FirstTopicCategory(topics);
    var k :| 0 <= k < |topics| && TopicCategory(topics[k]) == r
             && forall j :: 0 <= j < k ==> TopicCategory(topics[j]).None?;
    assert k == i;
  }

  lemma TopicMatchIgnoresCase(topic: string)
    ensures TopicCategory(topic) == TopicCategory(ToLower(topic))
  {
    ToLowerIdempotent(topic);
  }

  lemma ReactTopic()
    ensures TopicCategory("React") == Some("frontend")
  {
    assert ToLower("React") == "react";
  }

  lemma ReactTopicIsFrontend(languages: LanguageMap, rest: seq<string>)
    ensures DetermineProjectCategory(languages, ["React"] + rest) == "frontend"
  {
    ReactTopic();
    CategoryFromFirstMatchingTopic(languages, ["React"] + rest, 0);
  }

  /** An earlier matching topic wins over a later "react". */
  lemma EarlierTopicWins(languages: LanguageMap)
    ensures DetermineProjectCategory(languages, ["api", "react"]) == "backend"
  {
    assert TopicCategory("api") == Some("backend") by {
      assert ToLower("api") == "api";
    }
    CategoryFromFirstMatchingTopic(languages, ["api", "react"], 0);
  }

  lemma {:induction false} CategoryFromPrimaryLanguage(languages: LanguageMap, topics: seq<string>)
    requires forall i :: 0 <= i < |topics| ==> TopicCategory(topics[i]).None?
    requires |languages| > 0
    ensures DetermineProjectCategory(languages, topics)
         == LanguageCategory(languages[FirstMaxIndex(languages, BytesKey)].0)
    ensures forall e :: e in languages ==> e.1 <= languages[FirstMaxIndex(languages, BytesKey)].1
  {
    SortHead(languages, BytesKey);
    var i := FirstMaxIndex(languages, BytesKey);
    forall e | e in languages ensures e.1 <= languages[i].1 {
      var j :| 0 <= j < |languages| && languages[j] == e;
      assert BytesKey(languages[j]) <= BytesKey(languages[i]);
    }
  }

  /** With no known topic, a largest language (the first of them) that the
      language table does not know gives "fullstack". */
  lemma UnmappedLanguageGivesFullstack(languages: LanguageMap, topics: seq<string>)
    requires forall i :: 0 <= i < |topics| ==> TopicCategory(topics[i]).None?
    requires |languages| > 0
    requires languages[FirstMaxIndex(languages, BytesKey)].0 !in LanguageToCategory
    ensures DetermineProjectCategory(languages, topics) == "fullstack"
  {
    CategoryFromPrimaryLanguage(languages, topics);
  }

  lemma CategoryDefaultsToFullstack(topics: seq<string>)
    requires forall i :: 0 <= i < |topics| ==> TopicCategory(topics[i]).None?
    ensures DetermineProjectCategory([], topics) == "fullstack"
  {
  }

  /** Languages making up more than 5 % of the bytes: `bytes / total > 0.05`,
      written `20 * bytes > total`; false for every entry when the total is 0,
      where the source divides 0 by 0. */
  function Significant(languages: LanguageMap): (r: LanguageMap)
    ensures forall e :: e in r <==> e in languages && 20 * e.1 > TotalBytes(languages)
    ensures IsSubsequence(r, languages)
  {
    var total := TotalBytes(languages);
    Filter(languages, (e: (string, nat)) => 20 * e.1 > total)
  }

  /** `extractTechStack`: the significant languages, by descending byte count,
      at most five, as names. */
  function ExtractTechStack(languages: LanguageMap): (r: seq<string>)
    ensures |r| == Min(5, |Significant(languages)|)
  {
    var ranked := SortDesc(Significant(languages), BytesKey);
    var top := ranked[..Min(5, |ranked|)];
    seq(|top|, i requires 0 <= i < |top| => top[i].0)
  }

  lemma {:induction false} TechStackEntries(languages: LanguageMap)
    ensures var r := ExtractTechStack(languages);
      && |r| <= 5
      && |r| == Min(5, |Significant(languages)|)
      && forall i :: 0 <= i < |r| ==>
           exists e :: e in languages && e.0 == r[i] && 20 * e.1 > TotalBytes(languages)
  {
    var r := ExtractTechStack(languages);
    forall i | 0 <= i < |r|
      ensures exists e :: e in languages && e.0 == r[i] && 20 * e.1 > TotalBytes(languages)
    {
      var e := TechStackEntry(languages, i);
    }
  }

  /** The `i`-th name of the stack comes from a significant entry. */
  lemma TechStackEntry(languages: LanguageMap, i: nat) returns (e: (string, nat))
    requires i < |ExtractTechStack(languages)|
    ensures e in languages && e.0 == ExtractTechStack(languages)[i] && 20 * e.1 > TotalBytes(languages)
  {
    var sig := Significant(languages);
    var ranked := SortDesc(sig, BytesKey);
    e := ranked[i];
    assert e in multiset(sig);
    SignificantMember(languages, e);
  }

  lemma SignificantMember(languages: LanguageMap, e: (string, nat))
    requires e in Significant(languages)
    ensures e in languages && 20 * e.1 > TotalBytes(languages)
  {
  }

  lemma {:induction false} TechStackEmptyWithoutBytes(languages: LanguageMap)
    requires TotalBytes(languages) == 0
    ensures ExtractTechStack(languages) == []
  {
    TotalBytesZero(languages);
  }

  lemma {:induction false} TotalBytesZero(m: LanguageMap)
    requires TotalBytes(m) == 0
    ensures forall e :: e in m ==> e.1 == 0
  {
    if m != [] {
      var p := m[..|m| - 1];
      TotalBytesZero(p);
      assert m == p + [m[|m| - 1]];
    }
  }

  lemma {:induction false} TechStackOrderedAndDistinct(languages: LanguageMap)
    requires KeysDistinct(languages)
    ensures var r := ExtractTechStack(languages);
      && (forall i, j :: 0 <= i < j < |r| ==> r[i] != r[j])
      && (forall i, j :: 0 <= i < j < |r| ==> BytesOf(languages, r[i]) >= BytesOf(languages, r[j]))
  {
    var total := TotalBytes(languages);
    var sig := Significant(languages);
    var ranked := SortDesc(sig, BytesKey);
    var r := ExtractTechStack(languages);
    FilterKeepsDistinct(languages, (e: (string, nat)) => 20 * e.1 > total, EntryName);
    SortKeepsDistinct(sig, BytesKey, EntryName);
    forall i | 0 <= i < |r| ensures BytesOf(languages, r[i]) == ranked[i].1 {
      TechStackNameBytes(languages, i);
    }
    forall i, j | 0 <= i < j < |r| ensures r[i] != r[j] {
      assert EntryName(ranked[i]) != EntryName(ranked[j]);
    }
  }

  /** Only the top five are cut: a significant language that is left out has
      no more bytes than any language that is kept, and there are five kept. */
  lemma {:induction false} TechStackKeepsTheLargest(languages: LanguageMap, e: (string, nat))
    requires KeysDistinct(languages)
    requires e in languages && 20 * e.1 > TotalBytes(languages)
    requires e.0 !in ExtractTechStack(languages)
    ensures |ExtractTechStack(languages)| == 5
    ensures forall name :: name in ExtractTechStack(languages) ==> e.1 <= BytesOf(languages, name)
  {
    var ranked := SortDesc(Significant(languages), BytesKey);
    var r := ExtractTechStack(languages);
    var p := LeftOutRank(languages, e);
    forall name | name in r ensures e.1 <= BytesOf(languages, name) {
      var i :| 0 <= i < |r| && r[i] == name;
      TechStackNameBytes(languages, i);
      assert BytesKey(ranked[i]) >= BytesKey(ranked[p]);
    }
  }

  /** A significant language left out of the stack ranks below all five kept. */
  lemma LeftOutRank(languages: LanguageMap, e: (string, nat)) returns (p: nat)
    requires e in languages && 20 * e.1 > TotalBytes(languages)
    requires e.0 !in ExtractTechStack(languages)
    ensures var ranked := SortDesc(Significant(languages), BytesKey);
      |ExtractTechStack(languages)| == 5 <= p < |ranked| && ranked[p] == e
  {
    var sig := Significant(languages);
    var ranked := SortDesc(sig, BytesKey);
    var r := ExtractTechStack(languages);
    assert e in sig;
    assert e in multiset(ranked);
    p :| 0 <= p < |ranked| && ranked[p] == e;
    assert forall q :: 0 <= q < |r| ==> r[q] == ranked[q].0;
    assert p >= |r|;
  }

  lemma {:induction false} TechStackNameBytes(languages: LanguageMap, i: nat)
    requires KeysDistinct(languages)
    requires i < |ExtractTechStack(languages)|
    ensures var ranked := SortDesc(Significant(languages), BytesKey);
      ExtractTechStack(languages)[i] == ranked[i].0
      && BytesOf(languages, ranked[i].0) == ranked[i].1
  {
    var ranked := SortDesc(Significant(languages), BytesKey);
    assert ranked[i] in multiset(ranked);
    var k :| 0 <= k < |languages| && languages[k] == ranked[i];
    BytesOfDistinct(languages, k);
  }

  const ScriptImage := "https://images.pexels.com/photos/11035380/pexels-photo-11035380.jpeg?auto=compress&cs=tinysrgb&w=600"
  const PythonImage := "https://images.pexels.com/photos/1181671/pexels-photo-1181671.jpeg?auto=compress&cs=tinysrgb&w=600"
  const FrameworkImage := "https://images.pexels.com/photos/196644/pexels-photo-196644.jpeg?auto=compress&cs=tinysrgb&w=600"

  /** `imageMap` */
  const CategoryImages: map<string, string> := map[
    "frontend" := "https://images.pexels.com/photos/196644/pexels-photo-196644.jpeg?auto=compress&cs=tinysrgb&w=600",
    "backend" := "https://images.pexels.com/photos/577585/pexels-photo-577585.jpeg?auto=compress&cs=tinysrgb&w=600",
    "mobile" := "https://images.pexels.com/photos/1552242/pexels-photo-1552242.jpeg?auto=compress&cs=tinysrgb&w=600",
    "devops" := "https://images.pexels.com/photos/1181675/pexels-photo-1181675.jpeg?auto=compress&cs=tinysrgb&w=600",
    "data" := "https://images.pexels.com/photos/590020/pexels-photo-590020.jpeg?auto=compress&cs=tinysrgb&w=600",
    "fullstack" := "https://images.pexels.com/photos/230544/pexels-photo-230544.jpeg?auto=compress&cs=tinysrgb&w=600"
  ]

  predicate HasLanguageOverride(languages: seq<string>) {
    "JavaScript" in languages || "TypeScript" in languages || "Python" in languages
    || "React" in languages || "Vue" in languages
  }

  /** `getProjectImage` */
  function GetProjectImage(category: string, languages: seq<string>): (r: string)
    ensures r in CategoryImages.Values || r == ScriptImage || r == PythonImage
  {
    assert CategoryImages["fullstack"] in CategoryImages.Values;
    assert FrameworkImage == CategoryImages["frontend"];
    if "JavaScript" in languages || "TypeScript" in languages then ScriptImage
    else if "Python" in languages then PythonImage
    else if "React" in languages || "Vue" in languages then FrameworkImage
    else if category in CategoryImages then CategoryImages[category]
    else CategoryImages["fullstack"]
  }

  lemma ImagePriority(category: string, languages: seq<string>)
    ensures ("JavaScript" in languages || "TypeScript" in languages)
      ==> GetProjectImage(category, languages) == ScriptImage
    ensures (!("JavaScript" in languages || "TypeScript" in languages) && "Python" in languages)
      ==> GetProjectImage(category, languages) == PythonImage
    ensures (!("JavaScript" in languages || "TypeScript" in languages || "Python" in languages)
             && ("React" in languages || "Vue" in languages))
      ==> GetProjectImage(category, languages) == FrameworkImage
    ensures HasLanguageOverride(languages)
      ==> forall c :: GetProjectImage(c, languages) == GetProjectImage(category, languages)
    ensures (!HasLanguageOverride(languages) && category in CategoryImages)
      ==> GetProjectImage(category, languages) == CategoryImages[category]
  {
  }

  lemma UnknownCategoryImage(category: string, languages: seq<string>)
    requires category !in ProjectCategories && !HasLanguageOverride(languages)
    ensures GetProjectImage(category, languages) == CategoryImages["fullstack"]
  {
  }
}
