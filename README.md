# Portfolio data logic, modelled in Dafny

This project models the data logic of a personal-portfolio single-page app.
The app loads the owner's repositories from the GitHub API, ranks them, and
turns them into project cards and skill lists. The model covers:

- **Repository data** (`src/hooks/useGitHubData.ts`), module `GitHubData`:
  - the fork/archived filter and the star total;
  - the score of each repository and the stable top-6 selection of featured
    repositories;
  - the per-language byte totals over the first 20 original repositories;
  - the published summary record.
  The GitHub answers arrive as parameters: the repository list, the time
  `now`, and a function standing for the per-repository language request.
- **Project classification** (`src/utils/projectsMapping.ts`), module
  `ProjectsMapping`:
  - the topic-first category choice, over six categories;
  - the tech stack: languages with more than 5 % of the bytes, top five, by
    size;
  - the priority-ordered image choice.
- **Skill mapping** (`src/utils/skillsMapping.ts`), module `SkillsMapping`:
  - the language-to-skill table and the declared skills, both written out;
  - the clamped skill-level formula.
- **Skill lists** (`processGitHubSkills`, `src/components/Skills.tsx`), module
  `Skills`. An imperative method with the source's three loops:
  - detected languages are pushed first, then the declared skills, each only
    if the list has no skill of that name;
  - then every list is sorted by level.
  The method is proved equal to a functional specification. Lemmas then give
  the properties of that specification: distinct names, sorted lists,
  detected skills winning over declared ones, and exactly which names appear.
- **Project cards and filter** (`src/components/Projects.tsx`), module
  `Projects`:
  - repository names turned into titles;
  - the description, technologies and live-link fallbacks;
  - the order-preserving category filter.
- **Typewriter headline** (`src/components/Hero.tsx`), module `Hero`:
  - the timer tick as a pure transition `Tick`;
  - a class `Typewriter` whose `Step` method updates the three state fields
    in place;
  - lemmas about whole typing, holding and deleting cycles and their timing.

Three helper modules hold what several core files share:

- `Common`: Option, language maps as ordered entries, `Filter`, distinctness;
- `Text`: ASCII case mapping, word characters, substring search;
- `StableSort`: a stable descending insertion sort. It stands for
  JavaScript's stable `Array.prototype.sort` with a `b - a` comparator.

JavaScript objects whose enumeration order matters are sequences of
`(key, value)` pairs in insertion order. The language maps and the aggregated
totals are of this kind, and so are the skill table (`languageToSkillMapping`)
and the declared skills (`additionalSkills`), whose lookups go through their
entries. The category and image tables of `src/utils/projectsMapping.ts`,
which are only looked up, are Dafny maps.

Three behaviours of the code shape the model:

- **Keyword bonus.** Each of the seven bonus keywords is tested with
  `includes`, so each counts at most once however often it occurs. The bonus
  is 3 × (number of keywords found), between 0 and 21
  (`src/hooks/useGitHubData.ts:169-171`).
- **Topic rule.** The first topic, in list order, that the topic table knows
  decides the category (`src/utils/projectsMapping.ts:83-86`). A "react"
  topic gives "frontend" only when no earlier topic is known:
  `EarlierTopicWins` shows that an earlier "api" topic gives "backend".
- **State.** The headline animation is a state machine over three component
  state variables, and the skill lists are built by pushes into a record of
  lists. Both are modelled as state that changes step by step.

## Model

| member | source | states |
|---|---|---|
| GitHubData.OriginalRepos | src/hooks/useGitHubData.ts:68 | the kept repositories are exactly the input's non-fork, non-archived ones, each as often as in the input, in input order |
| GitHubData.TotalStars | src/hooks/useGitHubData.ts:74 | the star total is at least the stars of every repository summed over |
| GitHubData.StarsOfOriginals | src/hooks/useGitHubData.ts:68-74 | the stars of the original repositories are at most the stars of all of them |
| GitHubData.TotalStarsOfOriginals | src/hooks/useGitHubData.ts:68-74 | the star total of the filtered list equals the stars summed over the non-fork, non-archived repositories of the input |
| GitHubData.StarsIgnoreExcluded | src/hooks/useGitHubData.ts:68-74 | adding a fork or archived repository leaves the star total unchanged |
| GitHubData.DaysSinceUpdate | src/hooks/useGitHubData.ts:154 | the age in days times 86 400 000 is the age in milliseconds, and it is non-negative exactly when the update is not in the future |
| GitHubData.StarScore | src/hooks/useGitHubData.ts:151 | the star term is 5·stars below 10 stars and 50 from 10 stars on, always within [0, 50] |
| GitHubData.StarScoreMonotone | src/hooks/useGitHubData.ts:151 | more stars never lower the star term |
| GitHubData.RecencyScore | src/hooks/useGitHubData.ts:154-155 | the recency term is never negative, at most 20 for a non-negative age, and zero exactly from 600 days on |
| GitHubData.RecencyScoreMonotone | src/hooks/useGitHubData.ts:155 | an older update never scores higher |
| GitHubData.DescriptionScore | src/hooks/useGitHubData.ts:158 | 10 exactly when a description longer than 10 characters is present, else 0 |
| GitHubData.HomepageScore | src/hooks/useGitHubData.ts:161 | 15 exactly when a non-empty homepage is present, else 0 |
| GitHubData.TopicsScore | src/hooks/useGitHubData.ts:164 | 5 exactly when a non-empty topic list is present, else 0 |
| GitHubData.SearchText | src/hooks/useGitHubData.ts:167 | the searched text is the lower-cased name, a space, then the lower-cased description or nothing; it has no upper-case letter |
| GitHubData.KeywordCount | src/hooks/useGitHubData.ts:167-171 | the number of keywords counted is at most the number of keywords |
| GitHubData.KeywordCountIsFound | src/hooks/useGitHubData.ts:169-171 | with distinct keywords, the count is the size of the set of keywords occurring in the text, so each counts once however often it occurs |
| GitHubData.FoundKeywordsSnoc | src/hooks/useGitHubData.ts:169-171 | one more keyword adds itself to the found set exactly when the text contains it |
| GitHubData.BonusKeywordsDistinct | src/hooks/useGitHubData.ts:168 | the seven bonus keywords are pairwise different |
| GitHubData.KeywordBonus | src/hooks/useGitHubData.ts:166-171 | the keyword bonus lies in [0, 21] |
| GitHubData.KeywordBonusCountsFound | src/hooks/useGitHubData.ts:166-171 | the bonus is 3 times the number of distinct keywords found in the lower-cased "name description" |
| GitHubData.BaseScore | src/hooks/useGitHubData.ts:150-164 | the terms other than the keyword bonus sum to a non-negative value, at most 100 for an update not in the future |
| GitHubData.Score | src/hooks/useGitHubData.ts:147-173 | the score lies between the base score and the base score plus 21 |
| GitHubData.ScoreBounds | src/hooks/useGitHubData.ts:147-173 | a score is non-negative, and at most 121 for a repository not updated in the future |
| GitHubData.ScoreStarsMonotone | src/hooks/useGitHubData.ts:151 | more stars never lower the score of an otherwise identical repository |
| GitHubData.HomepageAddsFifteen | src/hooks/useGitHubData.ts:161 | a non-empty homepage adds exactly 15 to the score of an otherwise identical repository |
| GitHubData.TopicsAddFive | src/hooks/useGitHubData.ts:164 | non-empty topics add exactly 5 to the score of an otherwise identical repository |
| GitHubData.LongDescriptionAddsTen | src/hooks/useGitHubData.ts:158 | a description longer than 10 characters adds exactly 10, when it does not change the keywords found |
| GitHubData.ScoreRepo | src/hooks/useGitHubData.ts:147-173 | the step-by-step `score +=` computation with its keyword loop yields the score `Score` defines |
| GitHubData.ScoreAll | src/hooks/useGitHubData.ts:147-174 | one scored copy per repository, in order, each carrying that repository and its score |
| GitHubData.RankedRepos | src/hooks/useGitHubData.ts:177-178 | the scored repositories rearranged (same multiset) into non-increasing score order |
| GitHubData.ScoredMember | src/hooks/useGitHubData.ts:147-173 | every scored copy is an input repository, unchanged, with its own score |
| GitHubData.RankedPrefix | src/hooks/useGitHubData.ts:177-179 | the first n ranked entries and the rest together make up the scored list, and the first n are input repositories with their scores |
| GitHubData.SelectFeaturedRepos | src/hooks/useGitHubData.ts:139-180 | min(6, number of repositories) entries, each an input repository unchanged with its score, in non-increasing score order, no entry used twice |
| GitHubData.FeaturedKeepInputOrder | src/hooks/useGitHubData.ts:178 | among featured repositories of equal score, the input order is kept (stable sort) |
| GitHubData.FeaturedAreTheBest | src/hooks/useGitHubData.ts:177-179 | no repository left out scores more than any featured one |
| GitHubData.FindKey | src/hooks/useGitHubData.ts:86 | the position found holds the language; no position means the totals have no entry for it |
| GitHubData.AddBytes | src/hooks/useGitHubData.ts:86 | a language already in the totals keeps their length; a new one is appended with its bytes |
| GitHubData.BytesOfRaise | src/hooks/useGitHubData.ts:86 | raising one entry raises the total for its key by that amount and no other key's total |
| GitHubData.BytesOfSnoc | src/hooks/useGitHubData.ts:86 | appending an entry adds its bytes to its key's total only |
| GitHubData.HasKeySnoc | src/hooks/useGitHubData.ts:86 | appending an entry adds exactly its key |
| GitHubData.AddBytesTotals | src/hooks/useGitHubData.ts:86 | one update adds the bytes to that language's total and changes no other total |
| GitHubData.AddBytesKeys | src/hooks/useGitHubData.ts:86 | one update creates the language's key if missing and no other key |
| GitHubData.AddBytesDistinct | src/hooks/useGitHubData.ts:86 | one update keeps every language at most once in the totals |
| GitHubData.Merge | src/hooks/useGitHubData.ts:85-87 | folding a breakdown in adds at most one entry per breakdown entry and removes none |
| GitHubData.MergeTotals | src/hooks/useGitHubData.ts:85-87 | folding one breakdown in adds its bytes to each language's total |
| GitHubData.MergeKeys | src/hooks/useGitHubData.ts:85-87 | after folding a breakdown in, the keys are the old ones plus the breakdown's |
| GitHubData.MergeDistinct | src/hooks/useGitHubData.ts:85-87 | folding a breakdown in keeps the keys distinct |
| GitHubData.Aggregate | src/hooks/useGitHubData.ts:77-94 | when every fetch failed the totals stay empty |
| GitHubData.SumBytes | src/hooks/useGitHubData.ts:80-87 | the bytes summed for a language are at least its bytes in each fetched breakdown |
| GitHubData.AggregateDistinct | src/hooks/useGitHubData.ts:77-87 | the aggregated totals hold each language once |
| GitHubData.AggregateTotals | src/hooks/useGitHubData.ts:77-87 | each language's total is the sum of its bytes over the breakdowns that were fetched; failed fetches add nothing |
| GitHubData.AggregateKeys | src/hooks/useGitHubData.ts:77-87 | the totals hold exactly the languages some fetched breakdown mentions |
| GitHubData.AggregateLanguages | src/hooks/useGitHubData.ts:77-94 | the nested in-place update loops compute the aggregate of the first 20 breakdowns |
| GitHubData.AttachLanguages | src/hooks/useGitHubData.ts:97-110 | each featured repository keeps its fields and score, with its fetched breakdown attached, or an empty one when the fetch failed |
| GitHubData.Breakdowns | src/hooks/useGitHubData.ts:80-82 | one language request per repository, in order |
| GitHubData.BreakdownsPrefix | src/hooks/useGitHubData.ts:80 | the requests for the first n repositories are the first n requests |
| GitHubData.LoadGitHubData | src/hooks/useGitHubData.ts:65-120 | the published record: the original repositories, their count, their star total, the byte totals of the first 20 of them, and the featured six with their own breakdowns |
| ProjectsMapping.TablesUseProjectCategories | src/utils/projectsMapping.ts:2-41 | every language-table and topic-table category is one of the six project categories |
| ProjectsMapping.TopicCategory | src/utils/projectsMapping.ts:49-84 | a topic found in the table, after lower-casing, gives one of the six categories |
| ProjectsMapping.FirstTopicCategory | src/utils/projectsMapping.ts:83-86 | no result exactly when no topic is in the table; otherwise the category of a topic all of whose predecessors are unknown |
| ProjectsMapping.LanguageCategory | src/utils/projectsMapping.ts:94 | a mapped language gets its table category, an unmapped one "fullstack"; always one of the six |
| ProjectsMapping.DetermineProjectCategory | src/utils/projectsMapping.ts:44-98 | the chosen category is always one of the six |
| ProjectsMapping.CategoryFromFirstMatchingTopic | src/utils/projectsMapping.ts:83-86 | the first topic the table knows decides the category, whatever the languages and later topics |
| ProjectsMapping.TopicMatchIgnoresCase | src/utils/projectsMapping.ts:84 | a topic and its lower-cased form map alike |
| ProjectsMapping.ReactTopic | src/utils/projectsMapping.ts:50-84 | the topic "React" maps to "frontend" |
| ProjectsMapping.ReactTopicIsFrontend | src/utils/projectsMapping.ts:83-86 | a leading "React" topic gives "frontend" whatever the languages |
| ProjectsMapping.EarlierTopicWins | src/utils/projectsMapping.ts:83-86 | topics ["api", "react"] give "backend": the earlier topic wins |
| ProjectsMapping.CategoryFromPrimaryLanguage | src/utils/projectsMapping.ts:89-95 | with no known topic, the category of the first language with the most bytes decides |
| ProjectsMapping.UnmappedLanguageGivesFullstack | src/utils/projectsMapping.ts:89-95 | with no known topic, a first largest language missing from the language table gives "fullstack" |
| ProjectsMapping.CategoryDefaultsToFullstack | src/utils/projectsMapping.ts:97 | no known topic and no languages give "fullstack" |
| ProjectsMapping.Significant | src/utils/projectsMapping.ts:102-105 | the significant entries are exactly the input entries with more than 5 % of the bytes, in input order |
| ProjectsMapping.ExtractTechStack | src/utils/projectsMapping.ts:101-109 | the stack has as many names as there are significant languages, up to five |
| ProjectsMapping.TechStackEntries | src/utils/projectsMapping.ts:101-109 | at most five names, as many as there are significant languages up to five, each the key of an entry with more than 5 % of the bytes |
| ProjectsMapping.TechStackEntry | src/utils/projectsMapping.ts:104-108 | each name of the stack comes from an input entry holding more than 5 % of the bytes |
| ProjectsMapping.SignificantMember | src/utils/projectsMapping.ts:105 | a kept entry is an input entry with more than 5 % of the bytes |
| ProjectsMapping.TechStackEmptyWithoutBytes | src/utils/projectsMapping.ts:102-105 | an empty or all-zero breakdown gives an empty stack |
| ProjectsMapping.TotalBytesZero | src/utils/projectsMapping.ts:102 | a zero total means every entry has zero bytes |
| ProjectsMapping.TechStackOrderedAndDistinct | src/utils/projectsMapping.ts:104-108 | the names are pairwise different and in non-increasing order of bytes |
| ProjectsMapping.TechStackKeepsTheLargest | src/utils/projectsMapping.ts:105-107 | a significant language left out means five were kept, each with at least its bytes |
| ProjectsMapping.LeftOutRank | src/utils/projectsMapping.ts:106-107 | a significant language left out ranks at position five or later |
| ProjectsMapping.TechStackNameBytes | src/utils/projectsMapping.ts:106-108 | each stack name is the ranked entry's name, and its bytes in the input are that entry's bytes |
| ProjectsMapping.GetProjectImage | src/utils/projectsMapping.ts:112-134 | the image is a category image or one of the language-override images |
| ProjectsMapping.ImagePriority | src/utils/projectsMapping.ts:122-133 | JavaScript or TypeScript wins, then Python, then React or Vue with the framework image; any override ignores the category; without one a known category picks its own image |
| ProjectsMapping.UnknownCategoryImage | src/utils/projectsMapping.ts:133 | an unknown category without overrides gets the fullstack image |
| SkillsMapping.Lookup | src/utils/skillsMapping.ts:2-48 | a lookup finds nothing only when no entry has the key |
| SkillsMapping.SkillFor | src/components/Skills.tsx:26 | a language has no skill mapping exactly when no table entry names it |
| SkillsMapping.LookupSpec | src/utils/skillsMapping.ts:2-48 | a lookup succeeds exactly when some entry has the key, and returns a value stored under it |
| SkillsMapping.LookupAllMapped | src/utils/skillsMapping.ts:2-48 | in a well-formed table every lookup gives a mapped category and no preset level |
| SkillsMapping.SkillMappingWellFormed | src/utils/skillsMapping.ts:5-47 | every mapped language files under frontend, backend, database, mobile or cloud, with no preset level |
| SkillsMapping.SkillCategoriesDistinct | src/components/Skills.tsx:15-22 | the six list names are pairwise different |
| SkillsMapping.AdditionalSkillsWellFormed | src/utils/skillsMapping.ts:51-93 | the declared skills come in the six categories, in list order, with distinct names within each category |
| SkillsMapping.Round | src/utils/skillsMapping.ts:98 | `Math.round` gives the integer within half of its argument, halves rounded up |
| SkillsMapping.CalculateSkillLevel | src/utils/skillsMapping.ts:95-99 | the level always lies in [60, 95] |
| SkillsMapping.SkillLevelOfNothing | src/utils/skillsMapping.ts:96-98 | no bytes give level 60 |
| SkillsMapping.SkillLevelOfEverything | src/utils/skillsMapping.ts:96-98 | all the bytes give level 95 |
| SkillsMapping.SkillLevelMonotone | src/utils/skillsMapping.ts:96-98 | for a fixed positive total, more bytes never give a lower level |
| SkillsMapping.DetectedLevel | src/components/Skills.tsx:28 | a non-zero preset level is used as is; otherwise the level is derived, within [60, 95] |
| SkillsMapping.DetectedLevelIsDerived | src/components/Skills.tsx:28 | a detected language's level is always the derived one, within [60, 95] |
| Skills.EmptySkillTableKeys | src/components/Skills.tsx:15-22 | the record starts with the six empty lists |
| Skills.PushIfAbsent | src/components/Skills.tsx:32-39 | a guarded push keeps the record's keys |
| Skills.PushAll | src/components/Skills.tsx:24-57 | a sequence of guarded pushes keeps the record's keys |
| Skills.FirstCandidate | src/components/Skills.tsx:32-33 | the first skill offered for a list under a name is found exactly when one was offered |
| Skills.FirstCandidateAppend | src/components/Skills.tsx:24-57 | in two batches of offers, the first batch's offer under a name wins |
| Skills.FirstCandidateSnoc | src/components/Skills.tsx:32-33 | one more offer matters only when no earlier one had that list and name |
| Skills.OtherCategory | src/components/Skills.tsx:29-34 | an offer for another list leaves a list's build state intact |
| Skills.NameTaken | src/components/Skills.tsx:32-33 | an offer whose name the list already has is not pushed |
| Skills.HasNameSnoc | src/components/Skills.tsx:32 | after a push, the list has the old names plus the pushed one |
| Skills.NameFree | src/components/Skills.tsx:33-39 | an offer with a new name is appended, keeping names distinct and each entry the first offer of its name |
| Skills.PushStep | src/components/Skills.tsx:32-39 | one guarded push keeps every list built from the offers so far |
| Skills.PushAllBuilds | src/components/Skills.tsx:24-57 | after all the pushes, every list has distinct names, holds a name exactly when it was offered, and keeps each name's first offer |
| Skills.PushedList | src/components/Skills.tsx:24-57 | the same for one given list |
| Skills.DetectedSkill | src/components/Skills.tsx:26-38 | a mapped language offers its display name, marked as from GitHub |
| Skills.DetectedCandidates | src/components/Skills.tsx:25-41 | every detected offer is from GitHub and names a category of the mapping table |
| Skills.FirstMapsToExtends | src/components/Skills.tsx:25 | the first language of a prefix mapping to a name is the first of the whole map |
| Skills.DetectedStep | src/components/Skills.tsx:25-41 | after one more language, the first detected offer under a name is the earlier one, else the new language's |
| Skills.DetectedFirst | src/components/Skills.tsx:25-41 | a detected offer under a name exists exactly when a language maps to it, and it is the first such language's skill |
| Skills.CategoryCandidates | src/components/Skills.tsx:46-56 | one offer per declared skill of the category, in order, not from GitHub |
| Skills.AdditionalCandidates | src/components/Skills.tsx:44-57 | every declared offer names a declared category |
| Skills.AdditionalCandidatesMember | src/components/Skills.tsx:44-57 | an offer is declared exactly when it is not from GitHub and its category declares that name and level |
| Skills.CategoryCandidatesMember | src/components/Skills.tsx:46-56 | the offers of one entry are exactly its declared skills under its category |
| Skills.DeclaresInSnoc | src/utils/skillsMapping.ts:51-93 | the last declared entry adds exactly its own skills |
| Skills.AdditionalFirst | src/components/Skills.tsx:44-57 | a declared offer under a name exists exactly when the name is declared, and carries a declared level |
| Skills.AllCandidates | src/components/Skills.tsx:24-57 | every offer targets one of the six lists |
| Skills.CollectedSkills | src/components/Skills.tsx:24-57 | the lists before sorting have the six keys |
| Skills.SortTable | src/components/Skills.tsx:60-63 | sorting keeps the keys |
| Skills.ProcessedSkills | src/components/Skills.tsx:13-66 | the result has the six keys |
| Skills.CandidateFacts | src/components/Skills.tsx:24-57 | the first offer of a name is the detected one whenever a language maps to it, else the declared one |
| Skills.SortKeepsMembers | src/components/Skills.tsx:62 | sorting a list keeps its skills and names |
| Skills.SortedBuiltList | src/components/Skills.tsx:24-63 | sorting a built list gives a list meeting the list specification |
| Skills.ProcessedListSpec | src/components/Skills.tsx:13-66 | every final list has distinct names, sorted by non-increasing level; it holds a name exactly when a language maps to it or it is declared; an entry is from GitHub exactly when a language maps to its name, and is then the first such language's skill; other entries carry their declared level |
| Skills.DetectedSkillWins | src/components/Skills.tsx:24-57 | a name both detected and declared appears once, as the GitHub entry |
| Skills.DetectedOnceInList | src/components/Skills.tsx:32-33 | in a list meeting the specification, a detected name is held once, from GitHub |
| Skills.FirstLanguageInList | src/components/Skills.tsx:24-41 | such a list holds the skill of the first language mapping to a name |
| Skills.PortfolioTablesFit | src/utils/skillsMapping.ts:2-93 | the portfolio's tables file everything under the six lists, with no preset levels |
| Skills.GitHubSkills | src/components/Skills.tsx:13-66 | the portfolio's skill record has the six categories as keys |
| Skills.DetectedSkillListed | src/components/Skills.tsx:24-41 | the first language mapping to a name gives that name's entry in its list |
| Skills.DetectedSkillLevel | src/components/Skills.tsx:28 | without preset levels, a detected skill has the level its byte share earns |
| Skills.FirstLanguageGivesLevel | src/components/Skills.tsx:24-41 | the listed entry has the level of the first language mapping to the name |
| Skills.FirstOfTwoGivesLevel | src/components/Skills.tsx:24-41 | of two languages mapping to one name, the first gives the entry its level |
| Skills.HtmlMapping | src/utils/skillsMapping.ts:10 | HTML maps to frontend "HTML/CSS" |
| Skills.HtmlBeforeCss | src/utils/skillsMapping.ts:10-11 | with HTML enumerated before CSS, "HTML/CSS" is listed with HTML's level |
| Skills.PushAllAppend | src/components/Skills.tsx:24-57 | pushing two batches is pushing the first, then the second |
| Skills.DetectedCandidatesSnoc | src/components/Skills.tsx:25-41 | one more language adds its offer, if mapped, into one of the six lists |
| Skills.PushAllSnoc | src/components/Skills.tsx:32-39 | pushing one more offer is one more guarded push |
| Skills.DetectSkills | src/components/Skills.tsx:24-41 | the language loop builds the lists the detected offers define |
| Skills.AddDeclared | src/components/Skills.tsx:46-56 | the inner declared-skills loop pushes that category's offers |
| Skills.AddAllDeclared | src/components/Skills.tsx:44-57 | the outer loop pushes every declared offer, in order |
| Skills.UpdateStep | src/components/Skills.tsx:60-63 | sorting the next list extends the sorted prefix of lists by one and leaves the others |
| Skills.SortLists | src/components/Skills.tsx:59-63 | the sorting loop leaves every list stably sorted by level |
| Skills.SortedEveryKey | src/components/Skills.tsx:60-63 | sorting every key's list gives the sorted record |
| Skills.ProcessGitHubSkills | src/components/Skills.tsx:13-66 | the imperative procedure computes exactly the specified record |
| StableSort.Insert | src/hooks/useGitHubData.ts:178 | inserting adds one element and keeps the rest |
| StableSort.InsertBelowHead | src/hooks/useGitHubData.ts:178 | inserting a smaller element into the tail keeps everything at most the head |
| StableSort.InsertSorted | src/hooks/useGitHubData.ts:178 | inserting into a sorted list keeps it sorted |
| StableSort.SortDesc | src/hooks/useGitHubData.ts:178 | the sort permutes its input into non-increasing key order |
| StableSort.SortedPrefixDominates | src/hooks/useGitHubData.ts:178-179 | in a sorted list, nothing after the cut beats anything before it |
| StableSort.InsertKeyFilter | src/components/Skills.tsx:62 | an inserted element goes before every element of equal key |
| StableSort.SortStable | src/components/Skills.tsx:62 | elements of equal key keep their input order |
| StableSort.KeyFilterPrefix | src/hooks/useGitHubData.ts:179 | cutting a list keeps a prefix of each key's elements |
| StableSort.FirstMaxIndex | src/utils/projectsMapping.ts:89-93 | the index of the first element with the largest key |
| StableSort.SortHead | src/utils/projectsMapping.ts:89-93 | the sorted head is the first element with the largest key |
| StableSort.InsertKeepsDistinct | src/utils/projectsMapping.ts:106 | inserting an element with a new projection keeps projections distinct |
| StableSort.SortKeepsDistinct | src/utils/projectsMapping.ts:106 | sorting keeps projections distinct |
| Common.TotalBytes | src/utils/projectsMapping.ts:102 | the total is at least the bytes of each entry |
| Common.BytesOf | src/hooks/useGitHubData.ts:86 | a language's bytes never exceed the total |
| Common.BytesOfDistinct | src/utils/projectsMapping.ts:101-108 | with distinct keys, the total for an entry's key is that entry's bytes |
| Common.BytesOfAbsent | src/hooks/useGitHubData.ts:86 | a language absent from the map has total 0 |
| Common.IsSubsequenceRefl | src/components/Projects.tsx:46-47 | a list is a subsequence of itself |
| Common.Filter | src/components/Projects.tsx:48 | `filter` keeps exactly the matching elements, each as often as it occurs, in order |
| Common.DistinctCons | src/utils/projectsMapping.ts:104-108 | putting an element with a new projection in front keeps projections distinct |
| Common.FilterKeepsDistinct | src/utils/projectsMapping.ts:105 | filtering keeps projections distinct |
| Text.LowerChar | src/utils/projectsMapping.ts:84 | definitional primitive: `toLowerCase` on one character maps A-Z to a-z and leaves everything else |
| Text.UpperChar | src/components/Projects.tsx:21 | definitional primitive: `toUpperCase` on one character maps a-z to A-Z and leaves everything else |
| Text.ToLower | src/hooks/useGitHubData.ts:167 | lower-casing keeps the length and maps each character |
| Text.ToLowerIdempotent | src/utils/projectsMapping.ts:84 | lower-casing twice is lower-casing once |
| Text.Contains | src/hooks/useGitHubData.ts:170 | `includes` holds only when the pattern occurs at some position |
| Text.ContainsAt | src/hooks/useGitHubData.ts:170 | an occurrence at some position makes `includes` true |
| Projects.Dehyphen | src/components/Projects.tsx:21 | every "-" becomes a space and every other character stays, same length |
| Projects.Capitalize | src/components/Projects.tsx:21 | every `\w` character not preceded by a `\w` character is upper-cased, the rest unchanged |
| Projects.Title | src/components/Projects.tsx:21 | a title has the length of the repository name |
| Projects.UpperCharKeepsWordChar | src/components/Projects.tsx:21 | upper-casing keeps word characters and their lower-case form |
| Projects.CapitalizeKeepsWordStarts | src/components/Projects.tsx:21 | capitalizing keeps word boundaries in place |
| Projects.TitleSpec | src/components/Projects.tsx:21 | a title has the name's length and no hyphen, no word starts with a lower-case letter, and it equals the dehyphenated name up to case |
| Projects.TitleIdempotent | src/components/Projects.tsx:21 | making a title of a title changes nothing |
| Projects.TitleExample | src/components/Projects.tsx:21 | "task-api_v2" becomes "Task Api_v2" |
| Projects.PrimaryLanguage | src/components/Projects.tsx:24 | `[language].filter(Boolean)` holds the language exactly when it is present and non-empty |
| Projects.TopicsOf | src/components/Projects.tsx:32 | the repository's topics when present, else none |
| Projects.ToProject | src/components/Projects.tsx:13-33 | a card keeps the repository's id, link, stars, forks and update time, and has a known category |
| Projects.ToProjectSpec | src/components/Projects.tsx:13-33 | a card's category is the one the topics and languages determine; its description is the repository's when non-empty, else the default text; its technologies are the tech stack when non-empty, else the primary language, at most five, each significant or the primary language; its image is chosen from that category and stack; its topics are the repository's or none; its live link is the homepage when non-empty, else the repository page |
| Projects.ProjectWithoutBreakdown | src/components/Projects.tsx:14-24 | without a breakdown, the card lists only the primary language and is filed by topic, or as "fullstack" |
| Projects.ProcessedProjects | src/components/Projects.tsx:13-34 | one card per featured repository, same length and order |
| Projects.ProcessedCategories | src/components/Projects.tsx:13-34 | every card's category is one of the six |
| Projects.FilterIdsCoverCategories | src/components/Projects.tsx:36-44 | the filter buttons are "all" plus exactly the six categories |
| Projects.FilterProjects | src/components/Projects.tsx:46-48 | "all" gives the list unchanged; any other filter gives exactly the cards of that category, each as often as in the input, as a subsequence in order |
| Projects.FilterShowsEachProjectOnce | src/components/Projects.tsx:46-48 | a card shows under its own category's filter and under no other |
| Projects.UnknownFilterIsEmpty | src/components/Projects.tsx:46-48 | a filter naming no category shows nothing |
| Hero.Tick | src/components/Hero.tsx:11-32 | a tick keeps the title index in range |
| Hero.TickKeepsValid | src/components/Hero.tsx:13-27 | the text shown stays a prefix of the current title, and the index stays in range |
| Hero.TickTypes | src/components/Hero.tsx:16-17 | while typing, a tick appends exactly the title's next character |
| Hero.TickDeletes | src/components/Hero.tsx:22-23 | while deleting, a tick removes exactly the last character |
| Hero.TickStartsDeleting | src/components/Hero.tsx:15-19 | deleting starts only once the whole title is shown |
| Hero.TickAdvances | src/components/Hero.tsx:24-27 | the index moves to the next title, modulo the number of titles, only from an empty deleting display, and deleting stops in that tick |
| Hero.Iterate | src/components/Hero.tsx:11-32 | repeated ticks keep the index in range |
| Hero.Delay | src/components/Hero.tsx:19-29 | a tick waits 50 ms exactly while deleting, 2100 ms exactly when it ends the hold of a fully typed title, else 100 ms |
| Hero.Elapsed | src/components/Hero.tsx:11-32 | n ticks take between 50·n and 2100·n ms |
| Hero.IterateAdd | src/components/Hero.tsx:11-32 | a ticks then b ticks are a + b ticks |
| Hero.Chain | src/components/Hero.tsx:11-32 | runs of ticks compose |
| Hero.TypingPhase | src/components/Hero.tsx:16-29 | after k ticks from an empty display the first k characters show, after 100·k ms |
| Hero.DeletingPhase | src/components/Hero.tsx:15-23 | one tick after the title is complete deleting starts, and each further tick removes one character |
| Hero.HoldTime | src/components/Hero.tsx:19-29 | the tick ending the hold comes 2 s after the last character is typed |
| Hero.DeletingTime | src/components/Hero.tsx:19-29 | typing costs 100 ms a character, the hold 2 s, deleting 50 ms a character |
| Hero.Next | src/components/Hero.tsx:26 | the next title index is in range |
| Hero.FullCycle | src/components/Hero.tsx:11-32 | a cycle over a title takes 2·length + 2 ticks and 150·length + 2150 ms, ending ready to type the next title |
| Hero.NextThrice | src/components/Hero.tsx:9-26 | with three titles, three advances come back to the start |
| Hero.TwoCycles | src/components/Hero.tsx:11-32 | two cycles in a row end ready to type the title after the next |
| Hero.ThreeCycles | src/components/Hero.tsx:11-32 | three cycles in a row take the titles in turn |
| Hero.ThreeCyclesComeBack | src/components/Hero.tsx:9-32 | after three cycles the headline types its first title again |
| Hero.FirstCycleTakes4700Ms | src/components/Hero.tsx:9-32 | the first title's cycle takes 4.7 seconds |
| Hero.Typewriter.constructor | src/components/Hero.tsx:5-7 | the component starts with empty text, index 0, not deleting |
| Hero.Typewriter.Step | src/components/Hero.tsx:12-29 | the timer callback updates the three fields in place as `Tick` prescribes and keeps the text a prefix of the current title |

## Left out

- Network I/O: the `fetch` calls, HTTP status handling, JSON parsing, and the
  loading and error states of the hook (`src/hooks/useGitHubData.ts:46-133`).
  The repository list and `now` are parameters. The language request is a
  function parameter: `None` stands for a failed fetch, and the same
  repository always gets the same answer.
- Completion order of the concurrent language requests. The aggregation
  folds the breakdowns in request order, so a language's position among the
  totals may differ from the browser's. The totals themselves do not depend
  on the order.
- React plumbing: `useState`, `useEffect`, re-renders, and the repeated
  calls of `processGitHubSkills` during rendering. All JSX, CSS classes and
  icons are out.
- Timestamp parsing of `updated_at` into milliseconds, and the year and
  locale date formatting of the cards (`src/components/Projects.tsx:28,50-55`).
  `Project` has no date field.
- IEEE floating point. Scores and skill levels use exact real arithmetic, and
  `Math.round` is floor(x + 1/2) on exact values.
- Case mapping and `\w` are ASCII only, and lengths count characters, not
  UTF-16 code units.
- The age of each repository is computed from one time `now` for the whole
  ranking, where the source calls `Date.now()` once per repository
  (`src/hooks/useGitHubData.ts:154`). The calls differ by at most the time
  the scoring loop takes.
- Hero timers. The 50/100 ms delays and the 2 s hold appear only as the
  durations `Delay` assigns to ticks. The separate 2 s timeout that sets
  `isDeleting` is folded into the tick that starts it. `scrollToAbout` is
  out.
- Contact, Experience, About and Footer components: static content and form
  handling.
- Repositories whose `topics` field is `null` would make the original
  `determineProjectCategory` loop throw. The model treats them as having no
  topics.
- Prototype properties of the JavaScript lookup tables, for example a
  language literally named "constructor", are out. Lookups see only the
  declared entries.
- SkillsMapping.CalculateSkillLevel: requires a positive total, because 0/0
  is NaN in the original. Accordingly `Skills.ProcessGitHubSkills` requires a
  positive byte total whenever a language is present.
- GitHubData.LongDescriptionAddsTen: states the +10 only when the added
  description does not change the keywords found. A description can itself
  contain a bonus keyword and then add more than 10.
