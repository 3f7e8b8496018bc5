# Portfolio site: catalog, filtering, durations and contact flow

This project models the logic inside a personal portfolio web site, written
in TypeScript and React, and proves properties of it. The model covers:

- **Project catalog.** Each project's slug is made from its title by
  `createSlug`. The catalog has lookups by category, by the featured flag, by id
  and by slug.
- **Projects page.** The page has category tabs with badge counts, a category
  plus case-insensitive search filter, the technology badges of a card, and the
  two pieces of page state (selected tab and query).
- **Blog catalog.** The blog has category tabs with counts, lookups by category,
  featured flag, slug and tag, and the tag frequency table `getAllTags`.
- **Blog page.** The page has the same filter, one list per tab, the ten
  popular tags, and clicking a tag.
- **Experience.** Entries can be looked up by kind, by "still ongoing" and by
  id. The page shows a Spanish duration text for each entry
  (`calculateDuration`). It groups entries by kind, orders each group by end
  date, and shows summary counts.
- **Skills.** Skills can be looked up by category, and the flattened list
  holds every skill. The page has the level table, a per-level summary and the
  icon fallback of a skill card.
- **Contact form and server action.** The form has a field schema and a
  submitting flag around the call, and it shows toasts and resets. The form or
  a mailto fallback is shown depending on a flag. The server action
  `sendContactEmail` maps its input, the mail provider's configuration and the
  send outcome to a `{ success, error }` response.

Each source file is one module:

- `projects_data.dfy`, `blog_data.dfy`, `experience_data.dfy` and
  `skills_data.dfy` model the data files.
- `projects_page.dfy`, `blog_page.dfy`, `experience_page.dfy` and
  `skills_page.dfy` model the pages.
- `contact_form.dfy` and `contact_actions.dfy` model the contact component and
  the server action.
- `seqs.dfy` holds the shared list helpers: `filter`, `find`, counting and
  subsequence.
- `text.dfy` holds the string helpers: `toLowerCase`, `includes`, the first
  match of `replace`, and decimal digits.
- `wrappers.dfy` holds `Option`.

The data files are mostly pure, so they become functions over sequences. The
catalogs are parameters. `getAllTags` fills a dictionary with nested loops, so
it is a method with loop invariants. The two page-state pairs and the form's
submitting flag are fields updated in place, so they are classes whose
methods state the new state.

Dates are (year, month) pairs, and "now" is a parameter. The form's e-mail
check (a regular expression in the zod library) is a parameter `isEmail`. The
mail provider is a `Mailer` value: unconfigured, or configured with a send
that returns or throws. The public "form enabled" environment flag is a
parameter of `Render`.

The server action awaits the provider's `send` and ignores the value it
returns; only a thrown `send` gives the delivery error
(src/app/contact/actions.ts:32 and :62-67). A provider error reported in the
returned value therefore still ends in `{ success: true }`, which
`ContactActions.ReturnedErrorIgnored` states.

## Model

| member | source | states |
|---|---|---|
| ProjectsData.CategoryId | src/data/projects.ts:9 | no category is written "all", so the "all" tab never names a category |
| ProjectsData.CategoryIdInjective | src/data/projects.ts:9 | distinct categories have distinct ids, so comparing ids compares categories |
| ProjectsData.ReplaceAll | src/data/projects.ts:22-27 | a global character-class replace keeps the length and maps each character in the class to the target, every other one to itself |
| ProjectsData.FoldAccentsAt | src/data/projects.ts:22-27 | the six accent replacements act character by character as the table á/Á→a, é/É→e, í/Í→i, ó/Ó→o, ú/Ú→u, ñ/Ñ→n says |
| ProjectsData.DropOthers | src/data/projects.ts:28 | only `a-z`, `0-9`, `-` and white space survive, and every such character does: the order-preserving subsequence of exactly those characters, as long as their number |
| ProjectsData.CollapseSpaces | src/data/projects.ts:29 | no white space survives; every character left is a hyphen or came from the input |
| ProjectsData.CollapseSpacesKeepsWords | src/data/projects.ts:29 | the characters that are neither white space nor hyphens are kept exactly, in order |
| ProjectsData.SpaceRunIsOneHyphen | src/data/projects.ts:29 | a maximal run of white space anywhere in the text becomes exactly one hyphen, and the text before and after it collapses on its own |
| ProjectsData.CollapseSpacesSplit | src/data/projects.ts:29 | cut after a non-space, the text collapses piece by piece: no run of white space straddles the cut |
| ProjectsData.CollapseHyphens | src/data/projects.ts:30 | the result never has two hyphens in a row, is empty only for empty input, keeps the first character and has only characters of the input |
| ProjectsData.CollapseHyphensKeepsOthers | src/data/projects.ts:30 | every character other than a hyphen is kept exactly, in order |
| ProjectsData.HyphenRunIsOneHyphen | src/data/projects.ts:30 | a maximal run of two or more hyphens anywhere in the text becomes exactly one hyphen, and the text before and after it collapses on its own |
| ProjectsData.CollapseHyphensSplit | src/data/projects.ts:30 | cut after a non-hyphen, the text collapses piece by piece: no run of hyphens straddles the cut |
| ProjectsData.LoneHyphenKept | src/data/projects.ts:30 | a single hyphen anywhere in the text (the pattern needs two) is kept as it is |
| ProjectsData.TrimIsNoOp | src/data/projects.ts:31 | the final `trim` removes nothing once no white space is left |
| ProjectsData.CollapsedIsSlug | src/data/projects.ts:28-30 | once only `a-z`, `0-9`, `-` and white space are left, collapsing white space and then hyphens gives a well-formed slug with no white space |
| ProjectsData.CreateSlug | src/data/projects.ts:19-32 | the slug holds only `a-z`, `0-9` and `-`, with never two hyphens in a row, and keeps every letter and digit of the lower-cased, accent-folded title, in order |
| ProjectsData.TwoWordsJoinedByHyphen | src/data/projects.ts:19-31 | two words of letters and digits joined by a space give the two words joined by a hyphen ("hola mundo" gives "hola-mundo") |
| ProjectsData.CollapsesKeepAlnum | src/data/projects.ts:28-30 | letters and digits pass the character filter and both collapses unchanged and in order |
| ProjectsData.LeadingSpaceBecomesHyphen | src/data/projects.ts:29-31 | a title starting with white space gives a slug starting with `-` (leading and trailing hyphens survive) |
| ProjectsData.SlugIsFixedPoint | src/data/projects.ts:19-32 | every well-formed slug is its own slug |
| ProjectsData.CreateSlugIdempotent | src/data/projects.ts:19-32 | making a slug of a slug changes nothing |
| ProjectsData.WithSlugs | src/data/projects.ts:139-142 | the catalog has the raw list's length and order; each project is its raw entry plus the slug of its title, and every slug is well formed |
| ProjectsData.GetProjectsByCategory | src/data/projects.ts:144-146 | an order-preserving subsequence holding exactly the projects of that category |
| ProjectsData.GetFeaturedProjects | src/data/projects.ts:148-150 | an order-preserving subsequence holding exactly the featured projects |
| ProjectsData.GetProjectById | src/data/projects.ts:152-154 | nothing exactly when no project has the id; otherwise the first project that has it |
| ProjectsData.GetProjectBySlug | src/data/projects.ts:156-158 | nothing exactly when no project has the slug; otherwise the first project that has it |
| ProjectsData.SlugLookupFindsProject | src/data/projects.ts:139-158 | looking up the slug made from any project's title finds a project with that slug |
| ProjectsPage.CategoryTabs | src/app/projects/page.tsx:18-24 | five tabs: "all" counts the whole catalog; each category tab has that category's id and caption and counts that category's projects; the four category counts add up to the "all" count |
| ProjectsPage.PerCategoryCounts | src/app/projects/page.tsx:20-23 | the per-category counts in tab order add up as the four single counts |
| ProjectsPage.FilteredProjects | src/app/projects/page.tsx:38-46 | an order-preserving subsequence holding exactly the projects whose category is selected (or "all") and whose title, description or a technology contains the query, ignoring case |
| ProjectsPage.NoFilterShowsAll | src/app/projects/page.tsx:38-46 | with ("all", "") the whole catalog is shown, unchanged |
| ProjectsPage.SearchIgnoresQueryCase | src/app/projects/page.tsx:40-43 | a query and its lower case select the same projects |
| ProjectsPage.FilteringIsIdempotent | src/app/projects/page.tsx:38-46 | filtering the result again with the same selection and query changes nothing |
| ProjectsPage.CategoryTabShowsCategory | src/app/projects/page.tsx:39 | selecting a category tab with an empty query shows exactly `getProjectsByCategory` of that category |
| ProjectsPage.CardTechBadges | src/app/projects/page.tsx:159-168 | the first min(4, n) technologies, plus a "+(n−4)" badge exactly when n > 4; shown plus overflow is n |
| ProjectsPage.ProjectsPageView.constructor | src/app/projects/page.tsx:34-35 | the page starts at ("all", "") |
| ProjectsPage.ProjectsPageView.ShowsNoResults | src/app/projects/page.tsx:215 | the no-results panel shows exactly when no project passes both the category and the search test |
| ProjectsPage.ProjectsPageView.SetSearchQuery | src/app/projects/page.tsx:69 | typing sets the query and leaves the tab |
| ProjectsPage.ProjectsPageView.SetSelectedCategory | src/app/projects/page.tsx:76 | choosing a tab sets the selection and leaves the query |
| ProjectsPage.ProjectsPageView.ClearFilters | src/app/projects/page.tsx:223-226 | "Limpiar filtros" resets to ("all", ""), after which every catalog is shown in full and the no-results panel shows only for an empty catalog |
| BlogData.CategoryTabs | src/data/blog.ts:513-518 | four tabs: "all" counts every post; each named tab counts the posts whose category is exactly that string; the named counts add up to at most the total |
| BlogData.SlugifyCategory | src/data/blog.ts:522 | `toLowerCase().replace(" ", "-")`: same length, no upper-case letter left, only the first space made "-", every other character lower-cased |
| BlogData.NamedCategoryCounts | src/data/blog.ts:515-517 | the three exact-category counts add up to at most the number of posts |
| BlogData.GetBlogPostsByCategory | src/data/blog.ts:520-523 | "all" gives the list unchanged; any other argument gives the order-preserving subsequence, as long as the number of matching posts, of the posts whose lower-cased category, with its first space made "-", equals the lower-cased argument |
| BlogData.FrontendSlug | src/data/blog.ts:515-522 | "Frontend" lower-cases and slugifies to the tab id "frontend", which lower-casing leaves unchanged |
| BlogData.BackendSlug | src/data/blog.ts:516-522 | "Backend" lower-cases and slugifies to the tab id "backend", which lower-casing leaves unchanged |
| BlogData.DataScienceSlug | src/data/blog.ts:517-522 | "Data Science" lower-cases and slugifies to the tab id "data-science", which lower-casing leaves unchanged |
| BlogData.SpacelessSlug | src/data/blog.ts:522 | replacing the first space changes nothing in a text without one |
| Text.ReplaceFirst | src/data/blog.ts:522 | `replace(" ", "-")` with a string pattern: same length, only the first space becomes "-", every other character is kept |
| Text.ReplaceFirstAt | src/data/blog.ts:522 | the part before the first space is kept, the space becomes "-", and everything after it is kept as is, later spaces included |
| BlogData.NamedCategorySlugs | src/data/blog.ts:513-522 | each named category slugifies to its own tab id |
| BlogData.TwoWordSlug | src/data/blog.ts:522 | only the first space is replaced: "data science" becomes "data-science" |
| BlogData.BadgeWithinTab | src/data/blog.ts:513-523 | a named tab's badge never exceeds the number of posts the category lookup returns for its id |
| BlogData.GetFeaturedBlogPosts | src/data/blog.ts:525-527 | an order-preserving subsequence holding exactly the featured posts |
| BlogData.GetBlogPostBySlug | src/data/blog.ts:529-531 | nothing exactly when no post has the slug; otherwise the first post that has it |
| BlogData.GetBlogPostsByTag | src/data/blog.ts:547-551 | the order-preserving subsequence, as long as the number of matching posts, of the posts with a tag equal to the argument, ignoring case, as a whole string |
| BlogData.TagTotalPositive | src/data/blog.ts:536-540 | a tag has a positive count exactly when some post carries it |
| BlogData.InsertByCount | src/data/blog.ts:542-544 | one insertion step of the sort adds the entry and its count, and loses nothing |
| BlogData.InsertKeepsSorted | src/data/blog.ts:544 | insertion keeps the list sorted by count, largest first |
| BlogData.InsertKeepsDistinct | src/data/blog.ts:542-544 | inserting a new tag keeps every tag listed once |
| BlogData.TalliesStep | src/data/blog.ts:538 | `(tagCounts[tag] \|\| 0) + 1` keeps the dictionary equal to the tally of the entries seen, adding a key exactly for a new tag |
| BlogData.TalliesNextPost | src/data/blog.ts:536-540 | once a post's tags are all counted, the tally covers that post |
| BlogData.TallyPost | src/data/blog.ts:537-539 | the inner loop turns the tally of the posts before into the tally including this post |
| BlogData.ListedTallies | src/data/blog.ts:536-544 | the entries listed from the finished dictionary are exactly the tags with their positive totals, and the tags listed are the tags carried |
| BlogData.ListStep | src/data/blog.ts:542-544 | inserting the next key's entry keeps the listed entries sorted, distinct, exactly the keys so far and with their total |
| BlogData.GetAllTags | src/data/blog.ts:533-545 | an entry is listed exactly when its count is its tag's number of exact-case occurrences and positive; tags are distinct; counts are non-increasing; counts add up to the number of tag entries; the tags listed are the tags carried |
| BlogData.ListByCount | src/data/blog.ts:542-544 | the dictionary's entries, each once, sorted by count, with the same total |
| BlogPage.FilteredPosts | src/app/blog/page.tsx:33-42 | an order-preserving subsequence holding exactly the posts whose slugified category equals the selected id (or "all") and whose title, excerpt or a tag contains the query, ignoring case |
| BlogPage.TabPosts | src/app/blog/page.tsx:104-107 | the "all" tab lists the filtered posts; any other tab the order-preserving subsequence of them, as long as their number, with that slugified category |
| BlogPage.TabOfAllIsSelection | src/app/blog/page.tsx:33-42 | with "all" selected, a tab lists exactly what selecting that tab would filter |
| BlogPage.SelectedTabShowsAllFiltered | src/app/blog/page.tsx:104-107 | the selected tab lists the whole filtered list |
| BlogPage.OtherTabsEmpty | src/app/blog/page.tsx:104-107 | while a category is selected, every other named tab is empty |
| BlogPage.NoFilterShowsAll | src/app/blog/page.tsx:33-42 | with ("all", "") every post is shown, unchanged |
| BlogPage.CarriedTagMatchesSearch | src/app/blog/page.tsx:39 | a post carrying a tag passes the search for that tag |
| BlogPage.TagLookupWithinSearch | src/app/blog/page.tsx:36-39 | every post `getBlogPostsByTag` returns is shown when the query is that tag and no category is selected |
| BlogPage.PopularTags | src/app/blog/page.tsx:215 | the first min(10, n) entries; on a count-sorted list no hidden tag outcounts a shown one |
| BlogPage.BlogPageView.constructor | src/app/blog/page.tsx:30-31 | the page starts at ("all", "") |
| BlogPage.BlogPageView.ShowsNoResults | src/app/blog/page.tsx:185 | the no-results panel shows exactly when no post passes both the category and the search test |
| BlogPage.BlogPageView.SetSearchQuery | src/app/blog/page.tsx:66 | typing sets the query and leaves the tab |
| BlogPage.BlogPageView.SetSelectedCategory | src/app/blog/page.tsx:73 | choosing a tab sets the selection and leaves the query |
| BlogPage.BlogPageView.ClickTag | src/app/blog/page.tsx:220 | clicking a tag sets the query to it; every post of the selected category carrying it is then shown |
| BlogPage.BlogPageView.ClearFilters | src/app/blog/page.tsx:185-196 | resets to ("all", ""), after which every post is shown and the no-results panel shows only for an empty catalog |
| ExperienceData.GetExperienceByType | src/data/experience.ts:149-151 | an order-preserving subsequence holding exactly the entries of that kind |
| ExperienceData.KindsPartition | src/data/experience.ts:5 | every entry has one of four kinds, so the four lists' lengths add up to the catalog's |
| ExperienceData.GetCurrentExperience | src/data/experience.ts:153-155 | an order-preserving subsequence holding exactly the entries without an end date |
| ExperienceData.GetExperienceById | src/data/experience.ts:157-159 | nothing exactly when no entry has the id; otherwise the first entry that has it |
| ExperiencePage.YearsAndMonths | src/app/experience/page.tsx:57-58 | years·12 + remainder equals the months, with remainder below 12 |
| ExperiencePage.MonthsBetween | src/app/experience/page.tsx:51 | the whole months from start to end on the month scale, the day ignored; positive exactly when the end month is later |
| ExperiencePage.DurationText | src/app/experience/page.tsx:53-64 | from one month on, the text opens with a decimal number (its grammar is `DurationGrammar`, its reading back `DurationRoundTrip`) |
| ExperiencePage.DurationGrammar | src/app/experience/page.tsx:53-64 | under one month (negative included) "Menos de 1 mes"; 1 to 11 months "n mes/meses"; from 12, "y año/años", followed by " y r mes/meses" only when r > 0; singular exactly for 1 |
| ExperiencePage.DurationRoundTrip | src/app/experience/page.tsx:53-64 | reading the text back gives the month count, or 0 under one month |
| ExperiencePage.DurationTextInjective | src/app/experience/page.tsx:53-64 | different month counts of at least one get different texts |
| ExperiencePage.QuantityRoundTrip | src/app/experience/page.tsx:60-64 | a number followed by its noun splits back into that number and the singular noun exactly for 1, the plural otherwise |
| ExperiencePage.CalculateDuration | src/app/experience/page.tsx:47-65 | the text reads back as the months from start to end, or to now for an ongoing entry (0 under one month) |
| ExperiencePage.GroupsFor | src/app/experience/page.tsx:93-95 | each section holds exactly the entries of its kind under its label and is non-empty; every kind with entries gets a section; the sections' kinds keep the order of the given kinds |
| ExperiencePage.Groups | src/app/experience/page.tsx:93-95 | at most four sections, in the order of `typeLabels` (education, work, project, certification), each exactly its kind's entries and non-empty; every entry's kind has one |
| ExperiencePage.CountBadge | src/app/experience/page.tsx:110 | the badge reads back as the number of entries, and its noun is "elemento" exactly for 1 and "elementos" otherwise |
| ExperiencePage.Summary | src/app/experience/page.tsx:215-216 | four tiles in kind order, each its kind's label and number of entries; the counts add up to the catalog |
| ExperiencePage.InsertByEnd | src/app/experience/page.tsx:117 | one insertion step of the sort adds the entry and loses nothing |
| ExperiencePage.InsertByEndMembers | src/app/experience/page.tsx:117 | an insertion step holds the inserted entry and the old ones, and nothing else |
| ExperiencePage.InsertByEndSorted | src/app/experience/page.tsx:117 | insertion keeps the list sorted by end month, latest first |
| ExperiencePage.SortByEndDesc | src/app/experience/page.tsx:116-117 | a permutation of the group sorted by end month, latest first, an entry without end date counting as now |
| SkillsData.GetSkillsByCategory | src/data/skills.ts:197-199 | the skills of the first group with exactly that name; empty when no group has it |
| SkillsData.GetAllSkills | src/data/skills.ts:201-203 | its length is the sum of the group sizes, and a skill is in it exactly when some group lists it |
| SkillsData.GetAllSkillsAppend | src/data/skills.ts:202 | flattening is in order: the join of two catalogs is the join of their flattenings |
| SkillsData.CategorySkillsInAll | src/data/skills.ts:197-203 | every skill returned for a category is in the flattened list |
| SkillsPage.Rank | src/app/skills/page.tsx:39-44 | each level's position in the level table |
| SkillsPage.Style | src/app/skills/page.tsx:39-44 | `levelConfig`: a level's bar is 25% per rank in the level order, at most 100% |
| SkillsPage.PercentagesIncrease | src/app/skills/page.tsx:40-43 | a higher level always has a strictly longer bar |
| SkillsPage.LevelCountsAddUp | src/data/skills.ts:3 | the four per-level counts add up to the number of skills |
| SkillsPage.Summary | src/app/skills/page.tsx:80-88 | four lines in level order, each a level's name, colour and number of skills; the counts add up to the total |
| SkillsPage.LinesInOrder | src/app/skills/page.tsx:80-88 | the k-th summary line carries the k-th level's name, colour and number of skills |
| SkillsPage.CardIcon | src/app/skills/page.tsx:47 | the skill's own icon when the map knows it, otherwise `Terminal`; always an icon the map knows |
| ContactActions.EscapeNewlines | src/app/contact/actions.ts:49 | no line feed survives; a text without one is unchanged; the result is never shorter |
| ContactActions.EscapeNewlinesAppend | src/app/contact/actions.ts:49 | the replacement works piece by piece |
| ContactActions.LineFeedBecomesBreak | src/app/contact/actions.ts:49 | each line feed becomes exactly `<br>`: the text before the first one is kept, the line feed is replaced, and escaping goes on after it |
| ContactActions.FieldLineShows | src/app/contact/actions.ts:42-44 | a labelled field line of the body shows the field's value |
| ContactActions.HtmlBodyShowsFields | src/app/contact/actions.ts:36-57 | the body shows the name, the email, the subject and the escaped message |
| ContactActions.Compose | src/app/contact/actions.ts:32-59 | fixed sender and recipient, subject "[Portafolio] " plus the subject, replies to the submitter, and a body showing the name, the email, the subject and the escaped message |
| ContactActions.SendContactEmail | src/app/contact/actions.ts:19-93 | success exactly when every field is present, the provider is configured and `send` returned; the mail is sent exactly when every field is present and the provider configured, and it is the composed mail; a failure always carries a non-empty error, a success none |
| ContactActions.FailureMessages | src/app/contact/actions.ts:22-92 | a missing payload gives the internal error, an empty field the required error, no provider the not-configured error, a throwing send the send error |
| ContactActions.FailureMessagesDistinct | src/app/contact/actions.ts:22-92 | the four failure messages differ from each other |
| ContactActions.ReturnedErrorIgnored | src/app/contact/actions.ts:32-61 | a provider error returned by `send`, rather than thrown, still gives success |
| ContactActions.EmbeddedMessageHasNoLineFeed | src/app/contact/actions.ts:49 | the message inside a sent mail has no line feed |
| ContactActions.AllPresent | src/app/contact/actions.ts:22 | the required-field check passes exactly when each of the four fields is non-empty |
| ContactForm.Validate | src/components/site/ContactForm.tsx:14-19 | each rejected field gets its own message; no errors exactly when the schema accepts |
| ContactForm.AcceptedPassesRequiredCheck | src/components/site/ContactForm.tsx:14-19 | data the schema accepts has every field non-empty, so it passes the server's required check |
| ContactForm.AcceptedAndDeliveredSucceeds | src/components/site/ContactForm.tsx:35-45 | accepted data sent to a configured provider whose `send` returns succeeds |
| ContactForm.FailureText | src/components/site/ContactForm.tsx:45 | the response's error when non-empty, otherwise the default text |
| ContactForm.Render | src/components/site/ContactForm.tsx:55-75 | the form exactly when the flag is "true", otherwise the mailto fallback |
| ContactForm.ContactFormView.constructor | src/components/site/ContactForm.tsx:24 | not submitting, empty values, no errors, no toast |
| ContactForm.ContactFormView.BeginSubmit | src/components/site/ContactForm.tsx:36 | the flag is raised, so the four inputs and the button (`disabled={isSubmitting}`) are disabled; nothing else changes |
| ContactForm.ContactFormView.FinishSubmit | src/components/site/ContactForm.tsx:41-51 | the flag is down and the controls enabled whatever the outcome; success toasts and resets; a failure toasts its error or the default; a throw toasts the fixed text |
| ContactForm.ContactFormView.Submit | src/components/site/ContactForm.tsx:35-53 | rejected data only shows its field errors; accepted data ends with no field errors, the flag down, and the success toast with a reset, the response's error (or the default) as error toast, or the fixed text when the call throws |

## Left out

- Presentational code is left out: layout, animation, styling classes and icons. The HTML body of the mail keeps its text and element nesting but drops the inline styles and the indentation white space.
- Dates, locales and time zones are left out. Dates are (year, month) pairs, and "now" is a parameter.
- CalculateDuration: the month arithmetic is exact on (year, month) pairs; the day of the month and the time zone of JavaScript's `Date` are not modelled.
- SortByEndDesc: the key is the end month, and an ongoing entry counts as the current month. The original compares instants, so it puts an ongoing entry before one that ended earlier in the current month. The model gives both entries the same key. The order among equal keys is not stated.
- Lower models `toLowerCase` on Basic Latin and Latin-1 only, and the model's white space is JavaScript's `\s` set. Other Unicode case mappings are left out.
- ContactForm.Accepts counts lengths in characters. The schema library counts UTF-16 code units, so characters outside the Basic Multilingual Plane are left out.
- The schema's e-mail regular expression is left out. It is the parameter `isEmail`.
- GetAllTags: the order among tags of equal count is not stated, because it depends on the object key ordering (integer-like keys first) of `Object.entries`.
- Tags or icon names that collide with plain-object prototype members (such as "constructor") are left out. The model's dictionaries are proper maps.
- The skill bars' floating-point widths are left out. Percentages are whole numbers.
- The blog stats strip and the blog card's four-tag truncation are left out. The tag truncation is the same rule as ProjectsPage.CardTechBadges.
- Logging and environment reads are left out. The server's API key check is the `Mailer` value, and the public flag is the parameter of `Render`.
- The catalogs' contents are left out. Every catalog is a parameter.
- The form's `reset()` is modelled as empty strings for all fields.
- The mailto fallback's address is a constant. Its equality with the recipient of the server action is not stated.
- The asynchronous timing of the call is left out: `Submit` runs the call to its end at once.
