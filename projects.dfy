/** The project cards (src/components/Projects.tsx): each featured repository
    turned into a displayed project, and the category filter. */
module Projects {
  import opened Common
  import opened Text
  import opened ProjectsMapping
  import opened GitHubData

  // ---------------------------------------------------------------------
  // Titles: `name.replace(/-/g, ' ').replace(/\b\w/g, l => l.toUpperCase())`

  /** Every hyphen replaced by a space. */
  function Dehyphen(s: string): (r: string)
    ensures |r| == |s|
    ensures forall i :: 0 <= i < |s| ==> r[i] == (if s[i] == '-' then ' ' else s[i])
  {
    seq(|s|, i requires 0 <= i < |s| => if s[i] == '-' then ' ' else s[i])
  }

  /** `\b\w` matches at `i`: a word character not preceded by one. */
  predicate WordStart(s: string, i: int)
    requires 0 <= i < |s|
  {
    IsWordChar(s[i]) && (i == 0 || !IsWordChar(s[i - 1]))
  }

  /** Every character matched by `\b\w` upper-cased. */
  function Capitalize(s: string): (r: string)
    ensures |r| == |s|
    ensures forall i :: 0 <= i < |s| ==> r[i] == (if WordStart(s, i) then UpperChar(s[i]) else s[i])
  {
    seq(|s|, i requires 0 <= i < |s| => if WordStart(s, i) then UpperChar(s[i]) else s[i])
  }

  /** The card title of a repository name. */
  function Title(name: string): (t: string)
    ensures |t| == |name|
  {
    Capitalize(Dehyphen(name))
  }

  lemma UpperCharKeepsWordChar(c: char)
    ensures IsWordChar(UpperChar(c)) == IsWordChar(c)
    ensures LowerChar(UpperChar(c)) == LowerChar(c)
  {
  }

  /** Upper-casing word starts keeps the word boundaries where they were. */
  lemma CapitalizeKeepsWordStarts(s: string, i: int)
    requires 0 <= i < |s|
    ensures WordStart(Capitalize(s), i) == WordStart(s, i)
  {
    var r := Capitalize(s);
    UpperCharKeepsWordChar(s[i]);
    if i > 0 {
      UpperCharKeepsWordChar(s[i - 1]);
    }
  }

  /** A title has the name's length and no hyphens, every word in it starts
      with a character that is not a lower-case letter, and it equals the
      name with hyphens as spaces up to case. */
  lemma TitleSpec(name: string)
    ensures |Title(name)| == |name|
    ensures '-' !in Title(name)
    ensures forall i :: 0 <= i < |name| && WordStart(Title(name), i) ==> !IsLower(Title(name)[i])
    ensures ToLower(Title(name)) == ToLower(Dehyphen(name))
  {
    var d := Dehyphen(name);
    var t := Title(name);
    forall i | 0 <= i < |name| ensures t[i] != '-' && LowerChar(t[i]) == LowerChar(d[i]) {
      UpperCharKeepsWordChar(d[i]);
    }
    forall i | 0 <= i < |name| && WordStart(t, i) ensures !IsLower(t[i]) {
      CapitalizeKeepsWordStarts(d, i);
    }
  }

  /** Making a title of a title changes nothing. */
  lemma TitleIdempotent(name: string)
    ensures Title(Title(name)) == Title(name)
  {
    var t := Title(name);
    assert Dehyphen(t) == t by {
      TitleSpec(name);
    }
    forall i | 0 <= i < |t| ensures Capitalize(t)[i] == t[i] {
      CapitalizeKeepsWordStarts(Dehyphen(name), i);
    }
  }

  lemma TitleExample()
    ensures Title("task-api_v2") == "Task Api_v2"
  {
    var d := Dehyphen("task-api_v2");
    assert d == "task api_v2";
    var t := Capitalize(d);
    assert WordStart(d, 0) && WordStart(d, 5);
    forall i | 0 <= i < |d| && i != 0 && i != 5 ensures t[i] == d[i] {
      assert IsWordChar(d[i - 1]) || !IsWordChar(d[i]);
    }
  }

  // ---------------------------------------------------------------------
  // Processed projects

  const DefaultDescription := "A project built with modern technologies and best practices."

  /** A project card. The year taken from `created_at` is not modelled. */
  datatype Project = Project(
    id: int,
    title: string,
    description: string,
    image: string,
    technologies: seq<string>,
    category: string,
    githubUrl: string,
    liveUrl: string,
    stars: nat,
    forks: nat,
    lastUpdated: int,
    topics: seq<string>)

  /** `[repo.language].filter(Boolean)` */
  function PrimaryLanguage(language: Option<string>): (r: seq<string>)
    ensures |r| <= 1
    ensures r != [] <==> language.Some? && language.value != ""
    ensures r != [] ==> r[0] == language.value
  {
    if language.Some? && language.value != "" then [language.value] else []
  }

  /** `repo.topics || []` */
  function TopicsOf(r: Repo): (t: seq<string>)
    ensures r.topics.Some? ==> t == r.topics.value
    ensures r.topics.None? ==> t == []
  {
    if r.topics.Some? then r.topics.value else []
  }

  /** The callback of `featuredRepos.map`. The card keeps the repository's
      id, links and counters, and is filed under a known category. */
  function ToProject(f: FeaturedRepo): (p: Project)
    ensures p.id == f.repo.id && p.githubUrl == f.repo.htmlUrl
    ensures p.stars == f.repo.stars && p.forks == f.repo.forks && p.lastUpdated == f.repo.updatedAt
    ensures p.category in ProjectCategories
  {
    var repo := f.repo;
    var languages := f.detailedLanguages;
    var techStack := ExtractTechStack(languages);
    var category := DetermineProjectCategory(languages, TopicsOf(repo));
    var image := GetProjectImage(category, techStack);
    Project(
      repo.id,
      Title(repo.name),
      if repo.description.Some? && repo.description.value != "" then repo.description.value
      else DefaultDescription,
      image,
      if |techStack| > 0 then techStack else PrimaryLanguage(repo.language),
      category,
      repo.htmlUrl,
      if repo.homepage.Some? && repo.homepage.value != "" then repo.homepage.value else repo.htmlUrl,
      repo.stars,
      repo.forks,
      repo.updatedAt,
      TopicsOf(repo))
  }

  /** What a card promises: a known category chosen from the topics and
      languages; the description when there is a non-empty one and the
      default text otherwise; at most five technologies, the tech stack when
      it is non-empty and otherwise the primary language, each a language
      making up more than 5 % of the repository or else that primary
      language; the image chosen from the category and the tech stack; the
      topics or none; and a live link that is the homepage when there is
      one and the repository page otherwise. */
  lemma ToProjectSpec(f: FeaturedRepo)
    ensures var p := ToProject(f);
      && p.category in ProjectCategories
      && p.category == DetermineProjectCategory(f.detailedLanguages, TopicsOf(f.repo))
      && p.description != ""
      && ((f.repo.description.Some? && f.repo.description.value != "") ==>
            p.description == f.repo.description.value)
      && ((f.repo.description.None? || f.repo.description.value == "") ==>
            p.description == DefaultDescription)
      && p.title == Title(f.repo.name)
      && (ExtractTechStack(f.detailedLanguages) != [] ==>
            p.technologies == ExtractTechStack(f.detailedLanguages))
      && (ExtractTechStack(f.detailedLanguages) == [] ==>
            p.technologies == PrimaryLanguage(f.repo.language))
      && p.topics == TopicsOf(f.repo)
      && p.image == GetProjectImage(p.category, ExtractTechStack(f.detailedLanguages))
      && |p.technologies| <= 5
      && (forall t :: t in p.technologies ==>
            (exists e :: e in f.detailedLanguages && e.0 == t && 20 * e.1 > TotalBytes(f.detailedLanguages))
            || Some(t) == f.repo.language)
      && (p.technologies == [] <==>
            ExtractTechStack(f.detailedLanguages) == [] && (f.repo.language.None? || f.repo.language.value == ""))
      && (f.repo.homepage.Some? && f.repo.homepage.value != "" ==> p.liveUrl == f.repo.homepage.value)
      && (f.repo.homepage.None? || f.repo.homepage.value == "" ==> p.liveUrl == f.repo.htmlUrl)
  {
    var p := ToProject(f);
    var techStack := ExtractTechStack(f.detailedLanguages);
    TechStackEntries(f.detailedLanguages);
    forall t | t in techStack
      ensures exists e :: e in f.detailedLanguages && e.0 == t && 20 * e.1 > TotalBytes(f.detailedLanguages)
    {
      var i :| 0 <= i < |techStack| && techStack[i] == t;
    }
  }

  /** A repository with no language breakdown is filed by its topics, or
      as "fullstack", and lists at most its primary language. */
  lemma ProjectWithoutBreakdown(f: FeaturedRepo)
    requires f.detailedLanguages == []
    ensures ToProject(f).technologies == PrimaryLanguage(f.repo.language)
    ensures FirstTopicCategory(TopicsOf(f.repo)).None? ==> ToProject(f).category == "fullstack"
  {
    TechStackEmptyWithoutBytes([]);
  }

  /** `processedProjects`: one card per featured repository, in order. */
  function ProcessedProjects(featured: seq<FeaturedRepo>): (r: seq<Project>)
    ensures |r| == |featured|
    ensures forall i :: 0 <= i < |featured| ==> r[i] == ToProject(featured[i])
  {
    seq(|featured|, i requires 0 <= i < |featured| => ToProject(featured[i]))
  }

  lemma ProcessedCategories(featured: seq<FeaturedRepo>)
    ensures forall p :: p in ProcessedProjects(featured) ==> p.category in ProjectCategories
  {
    var r := ProcessedProjects(featured);
    forall p | p in r ensures p.category in ProjectCategories {
      var i :| 0 <= i < |r| && r[i] == p;
      ToProjectSpec(featured[i]);
    }
  }

  // ---------------------------------------------------------------------
  // The category filter

  /** The ids of the filter buttons. */
  const FilterIds: seq<string> := ["all", "fullstack", "frontend", "backend", "mobile", "devops", "data"]

  /** Every category has a button, and "all" is not a category. */
  lemma FilterIdsCoverCategories()
    ensures (set i | i in FilterIds && i != "all") == ProjectCategories
    ensures "all" !in ProjectCategories
  {
  }

  predicate InCategory(filter: string, p: Project) { p.category == filter }

  /** `filteredProjects`: everything under "all", otherwise the projects of
      that category in their order. */
  function FilterProjects(projects: seq<Project>, filter: string): (r: seq<Project>)
    ensures filter == "all" ==> r == projects
    ensures filter != "all" ==> forall p :: p in r <==> p in projects && p.category == filter
    ensures filter != "all" ==> forall p :: multiset(r)[p] == if p.category == filter then multiset(projects)[p] else 0
    ensures IsSubsequence(r, projects)
  {
    if filter == "all" then
      IsSubsequenceRefl(projects);
      projects
    else Filter(projects, p => InCategory(filter, p))
  }

  /** Each card shows up under its own category's button and under no other. */
  lemma FilterShowsEachProjectOnce(featured: seq<FeaturedRepo>, p: Project, filter: string)
    requires p in ProcessedProjects(featured) && filter != "all"
    ensures p in FilterProjects(ProcessedProjects(featured), filter) <==> filter == p.category
  {
  }

  /** A filter naming no category shows nothing. */
  lemma UnknownFilterIsEmpty(featured: seq<FeaturedRepo>, filter: string)
    requires filter != "all" && filter !in ProjectCategories
    ensures FilterProjects(ProcessedProjects(featured), filter) == []
  {
    var r := FilterProjects(ProcessedProjects(featured), filter);
    ProcessedCategories(featured);
    assert forall p :: p !in r;
  }
}
