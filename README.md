# Employee skills and project staffing, modelled in Dafny

The system is an employee-skill and project-assignment application. It has an Express +
Prisma backend and a Next.js frontend.

- Employees request skills and rate themselves on them.
- Managers approve or reject those ratings, and approve or reject the project assignments
  proposed for their reports.
- Admins maintain the skill catalogue, the employee records, user roles and the
  employee → manager links.
- HR describes a project in prose. An AI service suggests the required skills, and the
  backend matches them against the catalogue with a tiered fuzzy matcher. It then scores
  every employee against the project (a weighted skill index, a match percentage and the
  list of missing skills), and HR proposes candidates to their managers.

This project models the core of that system and proves properties of the model.

**Backend.** Each controller becomes a module.
- The Prisma tables are in-memory tables (module `Store`). Each table is an object whose
  `rows` sequence is replaced by every insert, update and delete, and which keeps its own
  auto-increment counter.
- Each request handler is a chain of guard checks, stated as a function that yields the
  response status. It is followed by one table update, a method whose `ensures` gives the
  whole new table.
- Password hashing, token signing and verification, and the AI call are function
  parameters.

**Frontend.**
- A page that only replaces React state wholesale is a `State` datatype with one function
  per handler. The handler yields the next state and, where the page sends a request, what
  it sends.
- A page that mutates objects or arrays in place is a class with methods:
  - the project-creation page, whose skill entries are edited in place;
  - the skill-request admin page, with its processing flag;
  - the authentication provider;
  - the HR dashboard, which sorts the fetched array in place.
- The API client is a parameter. Its outcome is a `Reply<T>` (`Replied(value)` or
  `Failed(message)`) or a `CallResult` (`Succeeded` or `CallFailed(message)`).

The modules are the following.

- `Common`:
  - optional values;
  - JavaScript truthiness of numbers and strings;
  - role and status names;
  - ASCII lower-casing and trimming;
  - substring search;
  - order-preserving filter, find and distinct, with their lemmas.
- `Store`: the tables and their well-formedness (ids below the counter, unique ids, the
  unique keys the code relies on).
- `GeminiService`, `ProjectGenerate`, `ProjectCreation`, `CandidateMatching` and
  `ProjectAssignments`: `Backend/src/services/geminiService.js` and
  `Backend/src/controllers/projectController.js`.
- `Ratings`, `Skills`, `EmployeeSkills`, `Admin`, `Employees` and `Auth`: the other
  controllers.
- `Middleware`: `Backend/src/middlewares/authMiddleware.js` and
  `Backend/src/middlewares/auth.js`.
- `Ui`: what the pages share, namely the call outcomes, the `err.message || fallback`
  text, the 'ALL' status filter, the rating bar and the project-list normalisation.
- One module per page or component: `CreateProjectPage`, `HrSkillsPage`, `SkillsPage`,
  `SkillRequestPage`, `ManagerTeamPage`, `ManagerProjectsPage`, `ManagerApprovalsPage`,
  `ManagerDashboardPage`, `HrCandidatesPage`, `HrProjectsPage`, `HrDashboardPage`,
  `AdminPage`, `AdminSkillRequestPage`, `MyRatingsPage`, `RateSkillsPage`,
  `EmployeesScreen`, `AuthContext`, `ProtectedRoute` and `RegisterPage`.

Where the written description of the system and the code disagree, the model follows the
code. The differences found are these.

- **A blank query to `matchSkillToDatabase` does not always return the first skill.** The
  exact tier runs first, so a skill with an empty name, if any, is returned first
  (`GeminiService.BlankQueryMatchesFirst` needs every name non-empty).
- **`calculateCandidateMatches` writes one row for every employee.** Its doc comment says
  only employees holding every required skill are included, but the code scores all of
  them (`CandidateMatching.RecalculateOneRowPerEmployee`).
- **`approveAssignment` reads `req.user.id`.** The tokens carry only `userId` (see
  Findings).


## Model

| member | source | states |
|---|---|---|
| GeminiService.ClampWeight | Backend/src/services/geminiService.js:52-53 | the weight lies in [1, 100], is unchanged inside that range and saturates at the nearer end outside it |
| GeminiService.ValidateItems | Backend/src/services/geminiService.js:46-59 | the reply is accepted iff every element has a name and a numeric weight, and a refusal carries the skill-format message; an accepted reply has one skill per element, in order, whose name is the element's trimmed name and whose weight is its weight clamped to [1, 100] |
| GeminiService.ValidateReply | Backend/src/services/geminiService.js:41-61 | a failed call or parse is an error, and so is a reply that is not an array (with the array-format message); an array reply is exactly its element validation, accepted iff every element is well formed, with one skill per element and every weight in [1, 100] |
| GeminiService.AbbreviationTier | Backend/src/services/geminiService.js:135-144 | the abbreviation tier finds nothing unless the normalised query is a key of the table; for a key, it finds nothing exactly when no catalogue skill equals, contains or is contained in the expansion, and otherwise finds the first such skill in catalogue order |
| GeminiService.MatchNormalized | Backend/src/services/geminiService.js:84-156 | the five tiers return a skill of the catalogue or nothing, and nothing for an empty catalogue |
| GeminiService.MatchSkillToDatabase | Backend/src/services/geminiService.js:81-157 | the match is a skill of the catalogue or none; an empty catalogue never matches |
| GeminiService.MatchIgnoresCaseAndPadding | Backend/src/services/geminiService.js:82 | queries that differ only in letter case or surrounding white space match the same skill |
| GeminiService.ExactMatchWins | Backend/src/services/geminiService.js:84-88 | the first skill whose lower-cased name equals the normalised query is returned, whatever the later tiers would give |
| GeminiService.ContainmentTierOrder | Backend/src/services/geminiService.js:90-94 | without an exact match, the first skill (in list order) whose name contains the query is returned |
| GeminiService.QueryContainsNameTierOrder | Backend/src/services/geminiService.js:96-100 | without an exact match or a name containing the query, the first skill (in list order) whose name the query contains is returned |
| GeminiService.AbbreviationTierOrder | Backend/src/services/geminiService.js:135-144 | when no skill matches exactly, contains the query or is contained in it, a query that is a key of the table is matched to the first skill (in list order) related to the key's expansion |
| GeminiService.FourthTierDecides | Backend/src/services/geminiService.js:84-144 | when the first three tiers find nothing, the abbreviation tier's skill is the overall match |
| GeminiService.BlankQueryMatchesFirst | Backend/src/services/geminiService.js:90-94 | a query blank after trimming returns the first skill when no skill name is empty |
| GeminiService.NonKeyNameAlwaysMatches | Backend/src/services/geminiService.js:146-153 | one skill whose lower-cased name is not a table key is enough for the matcher never to return null |
| ProjectGenerate.GuessCategory | Backend/src/controllers/projectController.js:27-61 | the first group, in the handler's order Frontend, Backend, Database, Cloud, DevOps, Mobile, Design, Testing, whose keyword occurs in the lower-cased name: each group is chosen iff its keyword occurs and no earlier group's does; Programming iff no keyword of any group occurs |
| ProjectGenerate.GuessCategoryIgnoresCase | Backend/src/controllers/projectController.js:28 | names equal up to letter case get the same category |
| ProjectGenerate.MongoDbIsBackend | Backend/src/controllers/projectController.js:35-46 | "MongoDB" is classified Backend, because it mentions "go" and the backend test runs before the database test |
| ProjectGenerate.ReactNativeIsFrontend | Backend/src/controllers/projectController.js:29-56 | "React Native" is classified Frontend, because the frontend test runs before the mobile test |
| ProjectGenerate.Round | Backend/src/controllers/projectController.js:67 | `Math.round`: the nearest integer, halves rounding up |
| ProjectGenerate.RescaleWeight | Backend/src/controllers/projectController.js:67 | the slider weight lies in [1, 10], and a zero (falsy) weight gives 1 |
| ProjectGenerate.RescaleIntegerWeight | Backend/src/controllers/projectController.js:67 | for an integer weight w ≥ 1 the result is (w + 5) div 10 clamped to [1, 10] |
| ProjectGenerate.RescaleMonotone | Backend/src/controllers/projectController.js:67 | a larger weight never gets a smaller slider weight |
| ProjectGenerate.NameSegment | Backend/src/controllers/projectController.js:70 | the trimmed first segment of the prompt holds no newline, '.' or '?' |
| ProjectGenerate.ProjectName | Backend/src/controllers/projectController.js:70-74 | the name is non-empty, at most 120 characters and free of newline, '.' and '?'; it is the trimmed first segment, cut to 120 characters, or 'AI Generated Project' when that segment is blank |
| ProjectGenerate.ToGenerated | Backend/src/controllers/projectController.js:63-68 | one suggested skill per validated skill, in order, with its name, its guessed category and its rescaled weight |
| ProjectGenerate.GenerateProject | Backend/src/controllers/projectController.js:15-84 | 400 iff the prompt is missing or blank; 500 iff it is not and the AI reply to the trimmed prompt fails validation; otherwise the derived name, the prompt as description and, for each element of the reply in order, its trimmed name, its guessed category and its clamped weight rescaled to 1-10 |
| ProjectCreation.Classify | Backend/src/controllers/projectController.js:264-280 | an entry is missing iff the matcher finds nothing and then has no skill id; a matched entry carries the found skill's id and name; both keep the suggested name and weight |
| ProjectCreation.Drafts | Backend/src/controllers/projectController.js:264-280 | one classified entry per suggested skill, in order |
| ProjectCreation.PartitionSkills | Backend/src/controllers/projectController.js:261-281 | the loop yields the matched entries and the missing entries, each in input order |
| ProjectCreation.PartitionIsExact | Backend/src/controllers/projectController.js:114-140 | every suggested skill lands in exactly one list (the lengths add up); matched entries have an id and are not missing; missing entries have no id, are missing and keep the suggested name |
| ProjectCreation.MatchedEntriesAreCatalogued | Backend/src/controllers/projectController.js:257-272 | with the controller's matcher every matched entry names a skill of the catalogue by id and name |
| ProjectCreation.StoredRequirements | Backend/src/controllers/projectController.js:289-296 | one requirement row per entry, in order, attached to the project, with consecutive fresh ids |
| ProjectCreation.StoredRequirementsShape | Backend/src/controllers/projectController.js:290 | the stored rows are the matched requirements (with a skill id) followed by the missing ones (without), one per suggested skill |
| ProjectCreation.CatalogueView | Backend/src/controllers/projectController.js:257-259 | the id and name of every catalogue skill, in table order |
| ProjectCreation.CreateProjectCheck | Backend/src/controllers/projectController.js:239-254 | 401 iff there is no user or neither id is truthy; 400 iff the user is known but the name, the description or a non-empty skill array is missing; creation proceeds only with a known acting user |
| ProjectCreation.CreateProjectCheckOrder | Backend/src/controllers/projectController.js:239-248 | the 401 check comes before the field checks |
| ProjectCreation.InsertProject | Backend/src/controllers/projectController.js:283-288 | the project is appended under the next id and the table stays well formed |
| ProjectCreation.InsertRequirements | Backend/src/controllers/projectController.js:289-296 | the requirement rows are appended in order with fresh ids |
| ProjectCreation.CreateProject | Backend/src/controllers/projectController.js:236-329 | a refusal answers its status and changes no table; otherwise 201, the project is stored OPEN under the acting user, its requirements are stored matched-then-missing, and the match table is recalculated for it |
| CandidateMatching.ScoredRequirements | Backend/src/controllers/projectController.js:338-344 | exactly the requirements of the project that are not missing and have a skill id |
| CandidateMatching.RequiredIds | Backend/src/controllers/projectController.js:351 | the skill ids of the requirements, in order |
| CandidateMatching.RatingOf | Backend/src/controllers/projectController.js:375 | the manager's rating when it is truthy, otherwise the self rating |
| CandidateMatching.RatingMap | Backend/src/controllers/projectController.js:370-377 | the map's keys are exactly the skills of the held records (the values are stated by `CandidateMatching.RatingForIsApprovedRating`) |
| CandidateMatching.RatingFor | Backend/src/controllers/projectController.js:396 | a skill absent from the map rates 0; a present one rates its stored rating, or 0 when that is missing or 0 |
| CandidateMatching.MissingNamesAreUnrated | Backend/src/controllers/projectController.js:379-390 | the missing names are, in requirement order, the names (`skill?.name \|\| req.skillName`) of exactly the requirements whose skill is not a key of the rating map |
| CandidateMatching.ScoreRow | Backend/src/controllers/projectController.js:400-412 | the row is for this project and this employee and lists at most one missing skill per requirement (its scores are stated by `CandidateMatching.ScoreRowMeaning`) |
| CandidateMatching.ScoreAll | Backend/src/controllers/projectController.js:366-413 | one row per fetched employee, in employee order |
| CandidateMatching.Recalculate | Backend/src/controllers/projectController.js:346-349 | a project without scored requirements leaves the match table unchanged |
| CandidateMatching.BuildRatingMap | Backend/src/controllers/projectController.js:370-377 | the loop builds `RatingMap` of the held records, so every required skill gets the rating of the employee's last approved record of it (`CandidateMatching.RatingForIsApprovedRating`) |
| CandidateMatching.CollectMissing | Backend/src/controllers/projectController.js:379-390 | the loop collects `MissingNames`, i.e. the names of the unrated requirements in requirement order (`CandidateMatching.MissingNamesAreUnrated`) |
| CandidateMatching.SumWeighted | Backend/src/controllers/projectController.js:392-398 | the loop accumulates the sum of weight × rating over the requirements |
| CandidateMatching.ScoreEmployee | Backend/src/controllers/projectController.js:369-412 | the loop body computes the employee's row |
| CandidateMatching.ScoreEmployees | Backend/src/controllers/projectController.js:366-413 | the outer loop computes one row per employee, in order |
| CandidateMatching.CalculateCandidateMatches | Backend/src/controllers/projectController.js:335-431 | the match table becomes the recalculated table: unchanged without scored requirements, otherwise the project's rows replaced |
| CandidateMatching.RecalculateKeepsOtherProjects | Backend/src/controllers/projectController.js:415-422 | the rows of every other project are kept, in order |
| CandidateMatching.RecalculateOneRowPerEmployee | Backend/src/controllers/projectController.js:366-422 | after recalculation the project has exactly one row per employee, in employee order, whether or not the employee holds every required skill |
| CandidateMatching.HeldSkillsDistinct | Backend/src/controllers/projectController.js:356-363 | with one record per (employee, skill) the held records have distinct skills, all of them required |
| CandidateMatching.MatchPercentageBounds | Backend/src/controllers/projectController.js:403-404 | with one record per (employee, skill) the match percentage lies in [0, 100] |
| CandidateMatching.NothingHeldScoresZero | Backend/src/controllers/projectController.js:379-404 | an employee with no approved rating of a required skill has skill index 0 and match 0, and lacks every requirement, listed in requirement order |
| CandidateMatching.ApprovedRatingIsLastRecord | Backend/src/controllers/projectController.js:355-377 | the rating used for a skill is 0 when the employee has no APPROVED record of it, and otherwise `managerRating \|\| selfRating \|\| 0` of the last such record in table order |
| CandidateMatching.RatingForIsApprovedRating | Backend/src/controllers/projectController.js:354-396 | for a required skill, the rating map has the skill as a key exactly when the employee has an APPROVED record of it, and `employeeSkillMap.get(skillId) \|\| 0` equals the rating of the last such record, or 0 |
| CandidateMatching.WeightedTotalIsWeightedRatings | Backend/src/controllers/projectController.js:392-398 | summing weight × rating read from the map equals summing weight × the last approved record's rating, when the two agree on every requirement |
| CandidateMatching.ScoreRowMeaning | Backend/src/controllers/projectController.js:369-412 | the skill index is Σ weight × (rating of the employee's last APPROVED record of the skill, or 0) divided by the number of requirements, and the missing skills are the names of the requirements the employee has no APPROVED record of, in requirement order |
| CandidateMatching.LaterRecordWins | Backend/src/controllers/projectController.js:370-400 | with two APPROVED records of the one required skill (weight 2), the later one's rating (its self rating 3, its manager rating being absent) is used over the earlier manager rating 5: the skill index is 6 and nothing is missing |
| ProjectAssignments.SelectingUser | Backend/src/controllers/projectController.js:551-555 | the acting HR user is `id ?? userId` when that is truthy, otherwise there is none |
| ProjectAssignments.SelectStep | Backend/src/controllers/projectController.js:596-645 | an employee without a manager is an error; one already assigned to the project is an error; otherwise a PENDING assignment to the employee's manager is appended under the next id |
| ProjectAssignments.SelectCheck | Backend/src/controllers/projectController.js:553-590 | 401 without an acting user, then 400 without a non-empty id array, then 404 for an unknown project, then 400 when the fetched employees are fewer than the requested ids; the loop runs iff the project exists and every requested id fetched one employee |
| ProjectAssignments.SelectionAccountsForEveryone | Backend/src/controllers/projectController.js:596-645 | every fetched employee appears exactly once among the created assignments and the errors |
| ProjectAssignments.SelectionAppendsCreated | Backend/src/controllers/projectController.js:605-623 | the table grows by exactly the created assignments, which take consecutive ids |
| ProjectAssignments.CreatedAssignmentsAreSound | Backend/src/controllers/projectController.js:597-634 | a created assignment is for a fetched employee with a manager who was not already assigned; it is PENDING, addressed to that manager and records the selecting HR user |
| ProjectAssignments.SelectionKeepsTableValid | Backend/src/controllers/projectController.js:605-643 | the loop keeps the ids distinct and below the counter, and stores no (project, employee) pair twice |
| ProjectAssignments.CreateAssignments | Backend/src/controllers/projectController.js:593-645 | the loop's table, created list and error list are those of the specification |
| ProjectAssignments.SelectEmployees | Backend/src/controllers/projectController.js:546-659 | a refusal answers its status and leaves the table, its next id and both result lists untouched; otherwise 201 and the loop runs over the employees whose ids were requested, keeping the table well formed |
| ProjectAssignments.DuplicateIdsAreRejected | Backend/src/controllers/projectController.js:586-590 | a request naming an employee twice is refused, so nothing is created |
| ProjectAssignments.ApprovalCheck | Backend/src/controllers/projectController.js:730-765 | 400 for an action other than APPROVE/REJECT, then 404 for an unknown assignment, then 403 iff the caller is not its manager, then 400 when its manager decides an assignment no longer PENDING; the update goes ahead iff none of these applies |
| ProjectAssignments.Decided | Backend/src/controllers/projectController.js:768-775 | the status becomes APPROVED iff the action approves, the comments are stored when given and kept otherwise, the decision time is stamped, and no other field changes |
| ProjectAssignments.CallerAsWritten | Backend/src/controllers/projectController.js:727 | the caller is the token's `id` field |
| ProjectAssignments.SignedTokenIsAlwaysForbidden | Backend/src/controllers/projectController.js:727-758 | with the caller read as written, a login token (which has no `id`) is refused with 403 for every existing assignment |
| ProjectAssignments.ManagerCanDecide | Backend/src/controllers/projectController.js:751-775 | with the intended caller, the assignment's manager holding a login token can decide a PENDING assignment |
| ProjectAssignments.ApproveAssignment | Backend/src/controllers/projectController.js:722-797 | with the intended caller (`Common.ActingUserId`, `id ?? userId`) in place of the `req.user.id` read at line 752: a refusal changes nothing; otherwise 200 and exactly the addressed record is decided |
| ProjectAssignments.DecisionIsFinal | Backend/src/controllers/projectController.js:760-765 | after a decision, a second decision on the same assignment is refused (400, or 403 for another caller) |
| ProjectAssignments.AssignedEmployees | Backend/src/controllers/projectController.js:458-470 | one id per assignment of the project, and an id is listed iff the employee has an assignment to the project |
| ProjectAssignments.ProjectCandidates | Backend/src/controllers/projectController.js:470-478 | a candidate is listed iff it is a match row of the project whose employee has no assignment to it |
| ProjectAssignments.CandidatesExcludeAssigned | Backend/src/controllers/projectController.js:470-478 | the candidate list is an order-preserving part of the match table and never shows an assigned employee |
| ProjectAssignments.PendingApprovals | Backend/src/controllers/projectController.js:862-864 | the count never exceeds the listed assignments |
| ProjectAssignments.PendingApprovalsCountsPending | Backend/src/controllers/projectController.js:812-864 | the count is the number of PENDING assignments of the project, and at most all its assignments |
| Ratings.SelfRateCheck | Backend/src/controllers/ratingController.js:8-29 | 400 iff the skill id or the rating is falsy or the rating is outside 1..5, before any lookup; 404 iff the input is valid but the caller's employee or the skill is unknown; the upsert runs only otherwise |
| Ratings.CommentText | Backend/src/controllers/ratingController.js:43 | the comment when it is a non-empty string, otherwise "" |
| Ratings.RatingIndex | Backend/src/controllers/ratingController.js:33-38 | the position of the record with the (employee, skill) key, and none iff no such record exists |
| Ratings.Upsert | Backend/src/controllers/ratingController.js:32-49 | an existing pair keeps the table length, a new pair is appended as a fresh PENDING record; afterwards some record of the pair holds the new rating and comments and is PENDING; records of other pairs are kept and no other record appears |
| Ratings.UpsertNextId | Backend/src/controllers/ratingController.js:39-44 | the id counter advances by at most one |
| Ratings.UpsertKeepsValid | Backend/src/controllers/ratingController.js:32-38 | the upsert keeps one record per (employee, skill) and fresh, distinct ids |
| Ratings.UpsertLeavesOneRecord | Backend/src/controllers/ratingController.js:32-49 | after rating, exactly one record holds the pair, with the latest rating and comments, and it is PENDING |
| Ratings.RerateKeepsTheRest | Backend/src/controllers/ratingController.js:45-49 | re-rating changes only that record's self rating, self comments and manager status; the other records and the manager's earlier rating, comments and stamp stay |
| Ratings.SelfRateSkill | Backend/src/controllers/ratingController.js:4-65 | a refusal answers its status and leaves the table alone; otherwise 201 and the table is the upsert of the caller's employee's rating |
| Ratings.DecisionCheck | Backend/src/controllers/ratingController.js:138-169 | 400 iff the status is not APPROVED/REJECTED or an approval carries a truthy rating outside 1..5; then 404 for an unknown record; then 500 when its employee row is missing; then 403 iff the employee has no manager or the caller is not that manager; the update runs iff every check passes |
| Ratings.OwnManagerCanDecide | Backend/src/controllers/ratingController.js:139-167 | in a table with unique record ids, the manager of a record's employee passes every check when rejecting, or approving with no rating or a rating in 1..5 |
| Ratings.ManagerDecided | Backend/src/controllers/ratingController.js:172-180 | the record takes the decision, the manager's rating when truthy or else the self rating, the comments or "", the time and the approver; the employee's own fields are unchanged |
| Ratings.ManagerApproveSkill | Backend/src/controllers/ratingController.js:133-197 | a refusal answers its status and changes nothing; otherwise 200 and exactly the addressed record is decided |
| Ratings.ApprovedRatingInRange | Backend/src/controllers/ratingController.js:144-148 | an approval that passes the checks stores a rating within 1..5 whenever the self rating was one |
| Ratings.RejectionStoresAnyRating | Backend/src/controllers/ratingController.js:144-148 | a rejection carrying any non-zero rating passes the checks, because the range check applies to approvals only |
| Ratings.DecisionsCanBeRevised | Backend/src/controllers/ratingController.js:162-180 | with no PENDING check, a record that was just decided can be decided again by the same manager |
| Ratings.SubordinateIds | Backend/src/controllers/ratingController.js:97-103 | exactly the ids of the employees whose manager is the caller |
| Ratings.TeamRatings | Backend/src/controllers/ratingController.js:200-239 | a record is listed iff it belongs to one of the caller's direct reports |
| Ratings.PendingApprovals | Backend/src/controllers/ratingController.js:93-130 | a record is listed iff it is PENDING and belongs to one of the caller's direct reports |
| Ratings.PendingIsPendingPartOfTeam | Backend/src/controllers/ratingController.js:105-110 | the pending list is the PENDING part of the team list, in the same order |
| Skills.CreateSkillCheck | Backend/src/controllers/skillController.js:7-12 | the skill is created iff a name is given and no catalogue skill has it; every refusal is 400 |
| Skills.StoredCategory | Backend/src/controllers/skillController.js:15 | the category is stored when given and non-empty, and as null otherwise |
| Skills.CreateSkill | Backend/src/controllers/skillController.js:4-22 | a refusal answers 400 and inserts nothing; otherwise 201 and the skill is appended under the next id with its stored category |
| Skills.CreatedNameIsUnique | Backend/src/controllers/skillController.js:10-16 | after a successful creation no earlier skill carries the new name |
| Skills.RequestRecord | Backend/src/controllers/skillController.js:52-58 | the request is for the employee and skill at the level, PENDING, with no rating and no approver yet |
| Skills.InsertCheck | Backend/src/controllers/skillController.js:52-64 | the create succeeds iff the skill exists and the pair has no record; otherwise it throws and answers 500 |
| Skills.RequestSkillCheck | Backend/src/controllers/skillController.js:41-59 | 400 without a truthy skill id and a level, then 404 when the caller has no employee; the request is stored only when the create can succeed |
| Skills.InsertKeepsValid | Backend/src/controllers/skillController.js:52-59 | a stored request keeps one record per (employee, skill) and fresh ids |
| Skills.RequestSkill | Backend/src/controllers/skillController.js:38-66 | a refusal answers its status and changes nothing; otherwise 201 and one PENDING request of the caller's employee is appended |
| Skills.Decision | Backend/src/controllers/skillController.js:74 | a decision exists iff the status is APPROVED or REJECTED, and it is that status |
| Skills.StatusUpdateCheck | Backend/src/controllers/skillController.js:74-90 | 400 for a status other than APPROVED/REJECTED before any lookup, then 404 for an unknown record; 403 iff the record exists and its employee is missing, has no admin or has another admin; the write happens iff the caller is the admin recorded on the record's employee |
| Skills.WithStatus | Backend/src/controllers/skillController.js:92-95 | only the `status` field of the addressed record changes |
| Skills.WithStatusKeepsValid | Backend/src/controllers/skillController.js:92-95 | a status rewrite keeps the table invariant |
| Skills.UpdateEmployeeSkillStatus | Backend/src/controllers/skillController.js:69-102 | a refusal changes nothing; otherwise 200 and only the status of the addressed record is written |
| Skills.StatusCheckedFirst | Backend/src/controllers/skillController.js:74-82 | an invalid status answers 400 even for an unknown record, which a valid status answers with 404 |
| Skills.MySkills | Backend/src/controllers/skillController.js:105-123 | 404 (or 500 without a user id) when the caller has no employee; on 200 a record is listed iff it is the caller's employee's |
| Skills.RequestsForAdmin | Backend/src/controllers/skillController.js:126-139 | the records of the employees administered by the caller, in table order |
| Skills.NoEmployeesNoRequests | Backend/src/controllers/skillController.js:128-131 | an admin who administers nobody sees no requests |
| EmployeeSkills.RequestCheck | Backend/src/controllers/employeeSkillController.js:6-19 | 400 without a truthy skill id and a level; 500 when the token has no employee id; the record is stored iff the create can succeed |
| EmployeeSkills.RequestSkill | Backend/src/controllers/employeeSkillController.js:4-26 | a refusal changes nothing; otherwise 201 and a PENDING record for the token's employee is appended |
| EmployeeSkills.SignedTokenCannotRequest | Backend/src/controllers/employeeSkillController.js:7-17 | a token issued at login or registration, which has no employee id, can never create a request |
| EmployeeSkills.UpdateCheck | Backend/src/controllers/employeeSkillController.js:34-41 | 400 for a status other than APPROVED/REJECTED; the write happens iff the record exists, with no ownership check |
| EmployeeSkills.UpdateSkillStatus | Backend/src/controllers/employeeSkillController.js:29-48 | a refusal changes nothing; otherwise 200 and only the status of the addressed record changes |
| EmployeeSkills.AnyCallerMayUpdate | Backend/src/controllers/employeeSkillController.js:37-41 | any caller can write a valid status on any existing record |
| EmployeeSkills.ListedEmployee | Backend/src/controllers/employeeSkillController.js:53 | the path id when given, else the token's employee id |
| EmployeeSkills.EmployeeSkillList | Backend/src/controllers/employeeSkillController.js:51-65 | exactly the listed employee's records; with no employee id at all, every record |
| EmployeeSkills.SignedTokenListsEverything | Backend/src/controllers/employeeSkillController.js:53-58 | a login token without a path id lists every record of every employee |
| Admin.RoleChangeCheck | Backend/src/controllers/adminController.js:37-64 | 400 for a missing role or one outside EMPLOYEE, MANAGER, HR and ADMIN; then 404 iff the user is unknown; the update runs only otherwise |
| Admin.ChangeUserRole | Backend/src/controllers/adminController.js:32-67 | a refusal changes nothing; otherwise 200 and only the role of the addressed user changes |
| Admin.RoleChangeKeepsRolesKnown | Backend/src/controllers/adminController.js:38-48 | if every stored role was one of the four known roles, it still is after a role change |
| Admin.AssignCheck | Backend/src/controllers/adminController.js:75-91 | 400 without a truthy chosen id, then 404 for an unknown user, then 400 for a user whose role is not admitted, then 404 for an unknown employee; the update runs iff the user exists, has an admitted role and the employee exists |
| Admin.HrRolesAreManagerRoles | Backend/src/controllers/adminController.js:89 | every role admitted as HR contact (line 136) is admitted as manager |
| Admin.FieldUpdateKeepsValid | Backend/src/controllers/adminController.js:94-96 | rewriting any field but the id and the user link keeps the employee table well formed |
| Admin.AssignManager | Backend/src/controllers/adminController.js:70-114 | a refusal changes nothing; otherwise 200 and only the addressed employee's `managerId` changes, to the chosen user |
| Admin.AssignHR | Backend/src/controllers/adminController.js:117-161 | a refusal changes nothing; otherwise 200 and only the addressed employee's `hrId` changes, to the chosen user |
| Admin.RefusedManagerIsRefusedHr | Backend/src/controllers/adminController.js:122-138 | a user refused as manager is refused as HR contact too |
| Admin.AssignedManagerHasManagerRole | Backend/src/controllers/adminController.js:80-96 | after a successful assignment the manager is a user whose role is MANAGER, HR or ADMIN |
| Admin.SystemStats | Backend/src/controllers/adminController.js:174-179 | the totals are the table sizes, and the pending count is the number of ratings whose manager status is PENDING |
| Admin.PendingIsTheUndecidedRest | Backend/src/controllers/adminController.js:178-179 | pending, approved and rejected ratings together make up all rating records |
| Employees.AccessRule | Backend/src/controllers/employeeController.js:34-40 | an EMPLOYEE may access only their own record, an ADMIN only the employees they administer, and any other role every record |
| Employees.ListEmployees | Backend/src/controllers/employeeController.js:5-20 | 403 for every role but ADMIN; an ADMIN gets exactly the employees whose admin they are, in table order (every employee when the token has no user id) |
| Employees.ReadEmployee | Backend/src/controllers/employeeController.js:24-47 | 404 for an unknown id; 200 iff the record exists and access is allowed, and then the record itself |
| Employees.AdminReadsWhatTheyList | Backend/src/controllers/employeeController.js:5-40 | an ADMIN can read a record iff the listing shows it to them |
| Employees.CreateCheck | Backend/src/controllers/employeeController.js:53-58 | creation proceeds iff the caller is an ADMIN and the first name, email and password are given; other roles get 403 |
| Employees.NewEmployee | Backend/src/controllers/employeeController.js:67-77 | the new record is linked to the new user, has the body's first name and the caller as admin, and no manager or HR contact |
| Employees.CreateEmployee | Backend/src/controllers/employeeController.js:51-84 | a refusal changes nothing; a taken email answers 500 with nothing written; otherwise an EMPLOYEE user with the hashed password is stored, then its employee (201), unless that user id is already linked (500, only the user written) |
| Employees.LinkedTablesCannotHalfCreate | Backend/src/controllers/employeeController.js:62-77 | when every employee links to an existing user, the second insert cannot fail |
| Employees.Patched | Backend/src/controllers/employeeController.js:103-106 | the id stays; each of the ten body fields (`userId`, the names, department, position, manager, company, `adminId`, `managerId`, `hrId`) takes the given value when the body has it and keeps the old one otherwise; an empty body changes nothing |
| Employees.UpdateCheck | Backend/src/controllers/employeeController.js:93-112 | 404 for an unknown id; for a known one, 403 iff access is denied; then 500 iff the body's `userId` is held by another employee (the unique constraint makes the update throw); the write happens iff none of these applies |
| Employees.UpdateEmployee | Backend/src/controllers/employeeController.js:88-113 | a refusal changes nothing; otherwise 200 and only the addressed record changes, to the body written over it |
| Employees.OwnerCanGiveAway | Backend/src/controllers/employeeController.js:96-106 | the body is not filtered: an owning ADMIN can set another `adminId` and then loses access to the record |
| Employees.DeleteCheck | Backend/src/controllers/employeeController.js:119-127 | 403 for every role but ADMIN, then 404 for an unknown id; the delete happens iff the caller administers the record |
| Employees.DeleteEmployee | Backend/src/controllers/employeeController.js:117-135 | a refusal changes nothing; otherwise 200 and exactly the addressed record is removed |
| Employees.DeleteKeepsValid | Backend/src/controllers/employeeController.js:129 | removing a record keeps the table well formed |
| Employees.DeleteRemovesTheId | Backend/src/controllers/employeeController.js:129 | after a delete no record carries the removed id |
| Employees.DeleteKeepsTheOthers | Backend/src/controllers/employeeController.js:129 | a delete keeps every other record |
| Auth.SignedPayload | Backend/src/controllers/authController.js:47-51 | a verified token from register or login carries the user id and role, and no `id` and no `employeeId` |
| Auth.UserByEmail | Backend/src/controllers/authController.js:78-81 | the stored user with that email, and none iff the email is not taken |
| Auth.RegisterCheck | Backend/src/controllers/authController.js:13-18 | registration proceeds iff email, password, first name and role are given and the email is free; every refusal is 400 |
| Auth.RegisteredEmployee | Backend/src/controllers/authController.js:36-43 | the profile is linked to the new user, with the first name, the last name or null, the admin id when truthy or null, and no manager or HR contact |
| Auth.Register | Backend/src/controllers/authController.js:9-67 | a refusal answers 400 and writes nothing; otherwise the user with the hashed password and the given role is stored; a profile is created iff the role is EMPLOYEE; the response names the profile's id and admin or nulls; 201 comes with the token signing the new id and role |
| Auth.RegisterStoresAnyRole | Backend/src/controllers/authController.js:24-30 | a registration with any non-empty role string passes the checks, so unknown roles are stored |
| Auth.Login | Backend/src/controllers/authController.js:70-109 | 400 without both fields; 200 iff the email is known and the password matches its hash, and then the user, the linked profile's id and admin (or nulls), the administered employees for an ADMIN and none otherwise, and the token signing the user's id and role |
| Auth.LoginFailuresLookAlike | Backend/src/controllers/authController.js:83-86 | an unknown email and a wrong password give the identical 401 answer |
| Auth.RegisteredUserCanLogIn | Backend/src/controllers/authController.js:21-30 | a user just registered logs in with the same password, and the session signs the same claims as the registration token |
| Middleware.ExtractToken | Backend/src/middlewares/authMiddleware.js:6-7 | a token is found iff the header (missing read as "") starts with the case-sensitive "Bearer "; it is the text after the prefix up to the next space |
| Middleware.ExtractTokenRoundTrip | Backend/src/middlewares/auth.js:5-6 | "Bearer " + a token without spaces, with or without a space and more text after it, gives back that token |
| Middleware.Authenticate | Backend/src/middlewares/authMiddleware.js:5-17 | 401 iff no non-empty token is found; 403 iff a token is found but fails verification; otherwise the verified payload is attached and the chain goes on |
| Middleware.NoTokenIsUnauthorized | Backend/src/middlewares/auth.js:5-7 | a missing header, another prefix (including "bearer "), the bare prefix and the prefix followed by a space all give 401 without verification |
| Middleware.VerifiedTokenDecides | Backend/src/middlewares/auth.js:9-15 | a well-formed header is refused with 403 iff verification fails, and otherwise attaches exactly the verified payload |
| Middleware.Check | Backend/src/middlewares/authMiddleware.js:20-56 | every guard answers 401 without a user; with one, it lets the request through iff it admits the role, and answers 403 otherwise |
| Middleware.IsEmployeeAdmitsAnyRole | Backend/src/middlewares/authMiddleware.js:20-26 | `isEmployee` admits every authenticated user, whatever the role |
| Middleware.GuardsAreNested | Backend/src/middlewares/authMiddleware.js:28-56 | a user admitted by `isAdmin` is admitted by `isHR`, one admitted by `isHR` by `isManager`, and one admitted by `isManager` by `isEmployee` |
| Middleware.AuthenticatedGuardNeverUnauthorized | Backend/src/middlewares/authMiddleware.js:12-22 | after a successful authentication a guard can only refuse with 403 |
| Ui.FailureText | frontend/src/app/skills/request/page.tsx:78 | the server's message when it is non-empty, the fallback otherwise, so a page with a non-empty fallback never shows an empty error |
| Ui.WhereKey | frontend/src/app/admin/skill-request/page.tsx:98-101 | the 'ALL' filter keeps the whole list; any other keeps, in order, exactly the elements whose key equals it |
| Ui.RatingBar | frontend/src/app/employee/my-ratings/page.tsx:82-94 | the bar is ten times the rating wide (0-100 for a rating of 0-10), green iff the rating is at least 8, blue iff it is 5-7, yellow iff below 5 |
| Ui.RatingBarMonotone | frontend/src/app/employee/my-ratings/page.tsx:82-94 | a higher rating never gives a narrower bar or a lower colour |
| Ui.ProjectList | frontend/src/app/hr/projects/page.tsx:83-86 | an array response is the list itself; an object gives its `projects` field, or the empty list when that is missing |
| Common.ParseStatus | Backend/src/controllers/skillController.js:72-76 | a status string yields the status with exactly that name, and nothing when no status has it |
| Common.ParseDecision | Backend/src/controllers/ratingController.js:139-141 | a decision exists iff the text is APPROVED or REJECTED, and it is never PENDING |
| Common.ActingUserId | Backend/src/controllers/projectController.js:551 | the token's `id` when present, its `userId` otherwise |
| Common.OrElse | Backend/src/controllers/projectController.js:375 | the first value when it is truthy (present and non-zero), else the second |
| Common.Lower | frontend/src/app/skills/page.tsx:110-112 | lower-casing keeps the length; it is idempotent and distributes over concatenation (`LowerIdempotent`, `LowerConcat`); only the ASCII letters are mapped |
| Common.Trim | frontend/src/app/skills/page.tsx:79-85 | the result neither starts nor ends with JavaScript white space (ASCII TAB, LF, VT, FF, CR, space, every Unicode space separator, the line and paragraph separators and the byte-order mark), is no longer than the input, and is empty iff the input is all white space |
| Common.TrimIgnoresPadding | frontend/src/app/skills/page.tsx:84-85 | white space added on either side does not change the trimmed text |
| Common.Distinct | frontend/src/app/skills/page.tsx:119-121 | no element twice, exactly the elements of the input, never longer than it |
| Common.DistinctInFirstOccurrenceOrder | frontend/src/app/skills/page.tsx:119-121 | the distinct elements are listed in the order of their first occurrence in the input |
| CreateProjectPage.ClampWeight | frontend/src/app/hr/projects/create/page.tsx:102-106 | the weight is kept iff it is within 1-10; below goes to 1 and above to 10 |
| CreateProjectPage.ClampIsIdempotent | frontend/src/app/hr/projects/create/page.tsx:102-106 | clamping a clamped weight changes nothing |
| CreateProjectPage.CreateRefusal | frontend/src/app/hr/projects/create/page.tsx:71-79 | a missing name or description is reported before the skill count; no refusal iff both are set and there is at least one skill |
| CreateProjectPage.SkillEntry.constructor | frontend/src/app/hr/projects/create/page.tsx:57-62 | an entry holds the generated name, category and weight |
| CreateProjectPage.Page.constructor | frontend/src/app/hr/projects/create/page.tsx:28-40 | the page starts with empty fields, no response, no skills and no flags set |
| CreateProjectPage.Page.Values | frontend/src/app/hr/projects/create/page.tsx:84-88 | the request lists the current entries' names, categories and weights, in order |
| CreateProjectPage.GenerateRequest | frontend/src/app/hr/projects/create/page.tsx:43-55 | nothing is sent iff the prompt is all white space; otherwise the request carries the trimmed, non-empty prompt |
| CreateProjectPage.Page.HandleGenerate | frontend/src/app/hr/projects/create/page.tsx:42-68 | the request sent is the one for the prompt at the call; a blank prompt only sets the error and leaves the response, entries and flags alone; otherwise the page ends as the reply to that request leaves it, with the generating flag cleared |
| CreateProjectPage.Page.TakeReply | frontend/src/app/hr/projects/create/page.tsx:48-67 | a reply is held and seeds name, description and entries with no error; a failure clears the held response, sets the server's message or the fallback, and keeps name, description and entries; the generating flag ends cleared |
| CreateProjectPage.Page.HandleCreateProject | frontend/src/app/hr/projects/create/page.tsx:70-100 | a refusal sends nothing and is shown; otherwise name, description and the current weights are sent, and success or the failure text follows |
| CreateProjectPage.Page.UpdateSkillWeight | frontend/src/app/hr/projects/create/page.tsx:102-106 | only the addressed entry changes, and only its weight, to the clamped value; an index outside the list changes nothing |
| CreateProjectPage.Page.RemoveSkill | frontend/src/app/hr/projects/create/page.tsx:108-110 | exactly the entry at the index leaves and the rest keep their order; any other index changes nothing; no other field changes |
| CreateProjectPage.RemovedListShape | frontend/src/app/hr/projects/create/page.tsx:108-110 | removal shortens the list by one, keeps the entries before the index and shifts the later ones down by one |
| CreateProjectPage.Page.StartOver | frontend/src/app/hr/projects/create/page.tsx:340-345 | the response, the skills and the error are cleared and nothing else changes |
| CreateProjectPage.GenerateThenReweigh | frontend/src/app/hr/projects/create/page.tsx:57-62 | after a generation the page holds the reply and its entries are the reply's own objects, so a weight changed on the page is the weight the held reply shows |
| HrSkillsPage.FilterSkills | frontend/src/app/hr/skills/page.tsx:97-111 | an order-preserving selection of exactly the skills whose name contains the term, ignoring case (any skill for an empty term), in the chosen category (any for 'all') |
| HrSkillsPage.NoFilterShowsAll | frontend/src/app/hr/skills/page.tsx:97-111 | no term and the 'all' category show the whole list |
| HrSkillsPage.HandleCreate | frontend/src/app/hr/skills/page.tsx:113-131 | without both fields nothing is sent and only the error is set; a created skill is appended and the dialog closed with the form cleared; a failure only sets the error |
| HrSkillsPage.ReplaceById | frontend/src/app/hr/skills/page.tsx:140-146 | same length; every element with the id becomes the server copy and the others stay |
| HrSkillsPage.HandleEdit | frontend/src/app/hr/skills/page.tsx:133-152 | needs a selection and both fields; success replaces the selected id's elements and closes the dialog; failure only sets the error |
| HrSkillsPage.EditKeepsIds | frontend/src/app/hr/skills/page.tsx:140-146 | an edit whose server copy keeps the id leaves every position's id unchanged |
| HrSkillsPage.RemoveById | frontend/src/app/hr/skills/page.tsx:158-163 | an order-preserving selection of exactly the elements with another id |
| HrSkillsPage.HandleDelete | frontend/src/app/hr/skills/page.tsx:154-169 | nothing without a selection; success removes the selected id and closes the dialog; failure only sets the error |
| HrSkillsPage.DeleteUndoesCreate | frontend/src/app/hr/skills/page.tsx:113-163 | deleting a skill just created with an id new to the list gives the list back |
| HrSkillsPage.CategoryCount | frontend/src/app/hr/skills/page.tsx:247 | the number of distinct categories: at most the number of skills, at least one when there are skills |
| SkillsPage.FilteredSkills | frontend/src/app/skills/page.tsx:108-116 | an order-preserving selection of exactly the skills whose name, or present category, contains the term ignoring case, and that are in the selected category when one is selected |
| SkillsPage.EmptyFiltersShowAll | frontend/src/app/skills/page.tsx:108-116 | an empty search with no category selected shows every skill |
| SkillsPage.SelectedCategoryOnly | frontend/src/app/skills/page.tsx:114-115 | a selected category admits only its own skills, whatever the search |
| SkillsPage.PresentCategories | frontend/src/app/skills/page.tsx:119-121 | exactly the non-empty categories some skill carries |
| SkillsPage.Categories | frontend/src/app/skills/page.tsx:119-121 | each non-empty category some skill carries, once, and never more entries than skills |
| SkillsPage.CategoriesInFirstOccurrenceOrder | frontend/src/app/skills/page.tsx:119-121 | the categories appear in the order the skills first mention them |
| SkillsPage.CreatePayload | frontend/src/app/skills/page.tsx:78-86 | nothing iff the name is blank; otherwise the non-empty trimmed name, with the trimmed category, or none iff the category is blank |
| SkillsPage.PayloadIgnoresPadding | frontend/src/app/skills/page.tsx:78-86 | white space around the typed fields does not change what is sent |
| SkillRequestPage.AvailableSkills | frontend/src/app/skills/request/page.tsx:101-102 | an order-preserving selection of exactly the catalogue skills no own record refers to |
| SkillRequestPage.RequestedSkillNotOffered | frontend/src/app/skills/request/page.tsx:101-102 | a skill the employee already has a record for is never offered |
| SkillRequestPage.NothingRequestedOffersAll | frontend/src/app/skills/request/page.tsx:101-102 | without own records the whole catalogue is offered |
| SkillRequestPage.HandleRequestSkill | frontend/src/app/skills/request/page.tsx:60-82 | without both selections only the error is set and nothing is sent; otherwise the pair is sent; success sets the message, clears both selections and reloads (a failed reload sets its own error); failure shows the server's message or the fallback |
| ManagerTeamPage.ApplyFilters | frontend/src/app/manager/team/page.tsx:76-88 | an order-preserving selection of exactly the ratings with the status (any for 'ALL') of the employee (any for 'ALL') |
| ManagerTeamPage.NoFiltersShowAll | frontend/src/app/manager/team/page.tsx:76-88 | both filters at 'ALL' show every rating |
| ManagerTeamPage.FiltersCommute | frontend/src/app/manager/team/page.tsx:76-88 | filtering by employee first and by status second gives the same list |
| ManagerTeamPage.ClearFilters | frontend/src/app/manager/team/page.tsx:247-250 | the filters it sets show every rating of any list |
| ManagerTeamPage.LastOf | frontend/src/app/manager/team/page.tsx:118-128 | the position of the employee's last rating |
| ManagerTeamPage.Employees | frontend/src/app/manager/team/page.tsx:118-128 | one entry per distinct employee id, in first-occurrence order, named after that employee's last rating |
| ManagerTeamPage.ListedIds | frontend/src/app/manager/team/page.tsx:118-128 | the listed ids are the distinct employee ids of the ratings |
| ManagerTeamPage.EmployeesAreDistinct | frontend/src/app/manager/team/page.tsx:118-128 | no employee is listed twice, and they are listed in order of first appearance |
| ManagerTeamPage.EmployeesCoverTheTeam | frontend/src/app/manager/team/page.tsx:118-128 | an employee is listed iff some rating is theirs |
| ManagerTeamPage.TeamStats | frontend/src/app/manager/team/page.tsx:131-136 | the total is the number of ratings and each status count is what the status filter alone shows |
| ManagerTeamPage.StatsAddUp | frontend/src/app/manager/team/page.tsx:131-136 | the three counts never exceed the total and make it up when every rating has one of the three statuses |
| ManagerProjectsPage.SplitName | frontend/src/app/manager/projects/page.tsx:91-92 | the first name has no space; without a space the name is the first name with an empty last name; with one, first + " " + last gives the name back |
| ManagerProjectsPage.MapRow | frontend/src/app/manager/projects/page.tsx:77-95 | the assignment takes the row's assignment id, employee, status (also shown as project status) and request date, and no comment; the two name parts give the employee's name back |
| ManagerProjectsPage.LoadRequests | frontend/src/app/manager/projects/page.tsx:70-106 | a list reply maps every row in order; a reply without the array or a failed call leaves the list empty, the failure's message becoming the error |
| ManagerProjectsPage.OpenReview | frontend/src/app/manager/projects/page.tsx:108-112 | selects the assignment with empty comments and no error, the list untouched |
| ManagerProjectsPage.Action | frontend/src/app/manager/projects/page.tsx:121-122 | APPROVE is sent iff the status is APPROVED, REJECT iff REJECTED |
| ManagerProjectsPage.Decide | frontend/src/app/manager/projects/page.tsx:126-130 | same length; the assignments with the id take the status and comments and the others stay |
| ManagerProjectsPage.HandleApproval | frontend/src/app/manager/projects/page.tsx:114-138 | nothing without a selection; otherwise the id, action and comments are sent; success decides that id locally and clears the selection; failure only sets the error |
| ManagerProjectsPage.PendingCount | frontend/src/app/manager/projects/page.tsx:153 | the number of PENDING assignments, at most the list's length |
| ManagerProjectsPage.DecisionLowersPending | frontend/src/app/manager/projects/page.tsx:126-153 | a decision takes exactly the pending assignments with the decided id out of the count |
| ManagerProjectsPage.DecidingOnePendingLowersByOne | frontend/src/app/manager/projects/page.tsx:126-153 | with one assignment per id, deciding a pending one lowers the count by one |
| ManagerApprovalsPage.LoadPending | frontend/src/app/manager/approvals/page.tsx:62-72 | a reply replaces the list; a failure keeps it and sets the error; loading ends either way |
| ManagerApprovalsPage.OpenApprovalDialog | frontend/src/app/manager/approvals/page.tsx:74-79 | the manager's rating starts at the employee's own rating, with empty comments and no error |
| ManagerApprovalsPage.DecisionBody | frontend/src/app/manager/approvals/page.tsx:88-92 | the status names the verdict; the manager's rating is sent iff it is an approval; the comments are sent as typed |
| ManagerApprovalsPage.RemoveRating | frontend/src/app/manager/approvals/page.tsx:93-95 | an order-preserving selection of exactly the ratings with another id |
| ManagerApprovalsPage.HandleApprove | frontend/src/app/manager/approvals/page.tsx:81-102 | nothing without a selection; otherwise the decision for the selected id is sent; success removes that id and clears the selection; failure only sets the error |
| ManagerApprovalsPage.DecidedRatingLeavesOnce | frontend/src/app/manager/approvals/page.tsx:93-95 | with unique ids a decided rating shortens the list by exactly one |
| ManagerDashboardPage.TeamMembers | frontend/src/app/manager/page.tsx:44 | the number of distinct employees with a rating: at most the number of ratings, at least one when there are ratings |
| ManagerDashboardPage.LoadStats | frontend/src/app/manager/page.tsx:32-54 | a failure of either awaited list keeps the previous numbers; otherwise pending approvals, distinct team members, approved ratings (bounded by the ratings) and the request count, zero when the reply has no length or fails |
| ManagerDashboardPage.ApprovedMembersAreMembers | frontend/src/app/manager/page.tsx:40-46 | members with an approved rating are team members, so never more of them |
| HrCandidatesPage.StaffableProjects | frontend/src/app/hr/candidates/page.tsx:103-105 | an order-preserving selection of exactly the ACTIVE and PENDING projects |
| HrCandidatesPage.LoadProjectsAsWritten | frontend/src/app/hr/candidates/page.tsx:99-116 | an array reply is filtered as above; an object reply makes `data.filter` throw, so only the TypeError text is set and the list and the selection stay; a failure only sets the error |
| HrCandidatesPage.ServerReplyNeverListsProjects | Backend/src/controllers/projectController.js:836-838 | the `{ totalProjects, projects }` reply of `getAllProjects` leaves the list as it was under the handler as written, while the normalised load lists its staffable projects |
| HrCandidatesPage.CorrectionKeepsArrayReplies | frontend/src/app/hr/candidates/page.tsx:99-116 | on an array reply or a failure the normalised load and the load as written give the same page |
| HrCandidatesPage.LoadProjects | frontend/src/app/hr/candidates/page.tsx:99-116 | with the reply normalised by `ProjectList` as the other HR pages do: the staffable projects of the list replace the page's list and the first becomes the selection (kept when none); a failure keeps both and sets the error; candidates untouched |
| HrCandidatesPage.SelectedProject | frontend/src/app/hr/candidates/page.tsx:189-191 | nothing without a selection; otherwise the first listed project with the selected id, and nothing iff no project has it |
| HrCandidatesPage.LoadSelectsFirstProject | frontend/src/app/hr/candidates/page.tsx:103-110 | after a load that keeps a project, the shown project is the first kept one |
| HrCandidatesPage.HandleAnalyze | frontend/src/app/hr/candidates/page.tsx:118-135 | without a selection only the error is set and nothing is requested; otherwise the selected project's candidates are fetched, a failure clearing them |
| HrCandidatesPage.OpenAssignDialog | frontend/src/app/hr/candidates/page.tsx:142-147 | the candidate is selected with empty comments and no error, and the dialog opens |
| HrCandidatesPage.RemoveCandidate | frontend/src/app/hr/candidates/page.tsx:163-166 | an order-preserving selection of exactly the candidates of other employees |
| HrCandidatesPage.HandleAssign | frontend/src/app/hr/candidates/page.tsx:149-173 | nothing without a candidate and a project; otherwise (project, employee, comments) is sent; success removes the employee's candidates and closes the dialog; failure only sets the error |
| HrCandidatesPage.AssignedEmployeeLeaves | frontend/src/app/hr/candidates/page.tsx:149-165 | after a successful assignment the employee is no longer a candidate and every other candidate is still listed |
| HrCandidatesPage.ScoreGrade | frontend/src/app/hr/candidates/page.tsx:175-187 | excellent iff the score is at least 70, good iff 50 up to 70, weak iff below 50 |
| HrCandidatesPage.ScoreGradeMonotone | frontend/src/app/hr/candidates/page.tsx:175-187 | a higher score never gets a lower grade |
| HrProjectsPage.LoadProjects | frontend/src/app/hr/projects/page.tsx:79-92 | a reply replaces the list with its normalised projects (empty when the object lacks them); a failure keeps it and sets the error |
| HrProjectsPage.FilteredProjects | frontend/src/app/hr/projects/page.tsx:94-102 | 'all' shows every project; any other filter an order-preserving selection of exactly the projects with that status |
| HrProjectsPage.GetAssignmentStats | frontend/src/app/hr/projects/page.tsx:140-149 | the total is the server's count; pending and approved count the listed assignments and together never exceed them |
| HrProjectsPage.TotalAssignments | frontend/src/app/hr/projects/page.tsx:226-229 | the sum is never negative when no count is, and zero when every count is missing |
| HrProjectsPage.TotalAssignmentsSplits | frontend/src/app/hr/projects/page.tsx:226-229 | the total of two lists is the sum of their totals |
| HrProjectsPage.SummaryCards | frontend/src/app/hr/projects/page.tsx:188-236 | the number of projects, of ACTIVE and of PENDING ones (together at most the total), and the assignment total |
| HrDashboardPage.SortNewestFirst | frontend/src/app/hr/page.tsx:78-84 | the array is sorted in place newest first and holds the same projects |
| HrDashboardPage.PendingOf | frontend/src/app/hr/page.tsx:70-76 | a project without assignments adds nothing; otherwise its pending count is at most its assignments |
| HrDashboardPage.PendingSum | frontend/src/app/hr/page.tsx:70-76 | zero when no project carries assignments |
| HrDashboardPage.PendingSumIgnoresOrder | frontend/src/app/hr/page.tsx:70-84 | two lists holding the same projects give the same sum, so sorting does not change it |
| HrDashboardPage.PendingSumMoveToEnd | frontend/src/app/hr/page.tsx:70-76 | moving one project to the end does not change the sum |
| HrDashboardPage.LoadDashboardData | frontend/src/app/hr/page.tsx:49-99 | each failed fetch counts as an empty list; the totals are the list lengths, the active count and the pending sum of the normalised projects; the recent list has min(5, n) projects, newest first, drawn from the projects, none of those left out newer than a listed one |
| HrDashboardPage.TopOfSorted | frontend/src/app/hr/page.tsx:78-84 | the first n of a newest-first list are newest first and none of the rest is newer than any of them |
| AdminPage.Managers | frontend/src/app/admin/page.tsx:47-51 | an order-preserving selection of exactly the users with role MANAGER |
| AdminPage.FetchData | frontend/src/app/admin/page.tsx:31-58 | each list is its reply or empty when its call fails; the managers are derived from the users and no error is shown |
| AdminPage.FailuresAreIndependent | frontend/src/app/admin/page.tsx:35-40 | the outcome of the employee call does not affect the users or the managers |
| AdminPage.EmployeesTab | frontend/src/app/admin/page.tsx:222-227 | an order-preserving selection of exactly the employees whose user has role EMPLOYEE |
| AdminPage.AdminCount | frontend/src/app/admin/page.tsx:141 | the number of ADMIN users, at most the users, and zero iff none is an admin |
| AdminPage.ManagersAndAdminsApart | frontend/src/app/admin/page.tsx:47-51 | managers and admins together never outnumber the users |
| AdminPage.OpenAssignDialog | frontend/src/app/admin/page.tsx:82-86 | the employee is selected with its current manager preselected (none when it has none) and the dialog opens |
| AdminPage.HandleAssignManager | frontend/src/app/admin/page.tsx:60-80 | nothing without both selections; otherwise (employee, manager) is sent; success refetches and closes the dialog with both selections cleared; failure keeps the state and alerts with the message |
| AdminSkillRequestPage.Page.constructor | frontend/src/app/admin/skill-request/page.tsx:38-41 | the page starts loading with no requests, no mark and the 'ALL' filter |
| AdminSkillRequestPage.Page.Load | frontend/src/app/admin/skill-request/page.tsx:47-57 | a reply replaces the list and a failure keeps it; loading ends |
| AdminSkillRequestPage.Page.HandleStatusUpdate | frontend/src/app/admin/skill-request/page.tsx:59-69 | the call runs with the request marked; after a success the list is the reload and the loading flag is cleared, after a failure the list and the flag are unchanged; the mark is cleared either way |
| AdminSkillRequestPage.Page.FilteredRequests | frontend/src/app/admin/skill-request/page.tsx:98-101 | 'ALL' shows every request; any other filter an order-preserving selection of exactly the requests with that status |
| AdminSkillRequestPage.Page.Counts | frontend/src/app/admin/skill-request/page.tsx:103-105 | the pending, approved and rejected counts, which together never exceed the requests |
| AdminSkillRequestPage.CountsAddUp | frontend/src/app/admin/skill-request/page.tsx:103-105 | when every status is one of the three the counts add up to the number of requests |
| AdminSkillRequestPage.ActionsOnlyWhilePending | frontend/src/app/admin/skill-request/page.tsx:293 | the requests offering actions are exactly those the PENDING filter shows |
| MyRatingsPage.GroupByStatus | frontend/src/app/employee/my-ratings/page.tsx:97-99 | three order-preserving selections of exactly the PENDING, APPROVED and REJECTED ratings |
| MyRatingsPage.GroupsPartition | frontend/src/app/employee/my-ratings/page.tsx:97-164 | no rating is in two groups and the counts never exceed the ratings; with only the three statuses the groups cover every rating and the counts add up |
| MyRatingsPage.LoadRatings | frontend/src/app/employee/my-ratings/page.tsx:42-52 | a reply replaces the list; a failure keeps it and sets the error; loading ends |
| RateSkillsPage.LoadSkills | frontend/src/app/employee/rate-skills/page.tsx:30-40 | a reply replaces the skills; a failure sets the error; loading ends |
| RateSkillsPage.HandleRatingChange | frontend/src/app/employee/rate-skills/page.tsx:77-82 | the skill's entry takes the rating and every other entry stays as it was |
| RateSkillsPage.SelectedRatings | frontend/src/app/employee/rate-skills/page.tsx:44-46 | exactly the entries rated above zero, with their ratings |
| RateSkillsPage.RatingChangeDecidesSelection | frontend/src/app/employee/rate-skills/page.tsx:44-82 | a rating above zero is sent with its value, zero or less withdraws the skill, and the other selections stay |
| RateSkillsPage.HandleSubmit | frontend/src/app/employee/rate-skills/page.tsx:42-75 | the entries rated above zero are sent; with none only the error is set; success clears every rating and failure only sets the error |
| RateSkillsPage.GroupSkills | frontend/src/app/employee/rate-skills/page.tsx:85-91 | one group per category present, holding exactly that category's skills in input order |
| RateSkillsPage.GroupsPlaceEachSkillOnce | frontend/src/app/employee/rate-skills/page.tsx:85-91 | the group of a skill's category holds every copy of it and every other group none |
| EmployeesScreen.FilteredEmployees | frontend/src/components/EmployeesScreen.tsx:98-107 | an order-preserving selection of exactly the employees whose name and email contain the search ignoring case, in the selected department when one is selected |
| EmployeesScreen.EmptyFiltersShowAll | frontend/src/components/EmployeesScreen.tsx:98-107 | an empty search with no department shows everyone |
| EmployeesScreen.SearchByEmailFinds | frontend/src/components/EmployeesScreen.tsx:99-102 | searching for an employee's email finds that employee |
| EmployeesScreen.ActiveCount | frontend/src/components/EmployeesScreen.tsx:249-251 | the number of active employees, at most all of them, and all of them iff every one is active |
| EmployeesScreen.HandleAdd | frontend/src/components/EmployeesScreen.tsx:109-123 | the parent receives the form, which is then reset, and the modal closes |
| EmployeesScreen.OpenEditModal | frontend/src/components/EmployeesScreen.tsx:134-147 | the employee is selected and the form filled from its fields, with company '1' |
| EmployeesScreen.HandleEdit | frontend/src/components/EmployeesScreen.tsx:125-132 | the parent is called only with a selection, with its id and the form; the modal closes and the selection is cleared |
| EmployeesScreen.EditAfterOpenSendsTheEmployee | frontend/src/components/EmployeesScreen.tsx:125-147 | editing right after opening sends the employee's own values back |
| EmployeesScreen.ToggleActionMenu | frontend/src/components/EmployeesScreen.tsx:362-369 | the row's menu opens iff it was not open, and closes iff it was |
| EmployeesScreen.ToggleTwice | frontend/src/components/EmployeesScreen.tsx:362-369 | two clicks on the same row leave its menu as it was if it was open and no menu open otherwise |
| AuthContext.RouteFor | frontend/src/contexts/AuthContext.tsx:92-107 | ADMIN goes to /admin, HR to /hr, MANAGER to /manager and any other role to /employee |
| AuthContext.AuthProvider.constructor | frontend/src/contexts/AuthContext.tsx:42-47 | a provider starts loading, signed out, with the page's storage and no navigation |
| AuthContext.AuthProvider.HasRole | frontend/src/contexts/AuthContext.tsx:168-172 | false without a user; otherwise true iff the user's role is among the roles |
| AuthContext.AuthProvider.Restore | frontend/src/contexts/AuthContext.tsx:49-64 | with both stored values non-empty the token is taken and a parsable user restored; an unparsable one clears both keys; otherwise nothing changes; loading ends |
| AuthContext.AuthProvider.SignIn | frontend/src/contexts/AuthContext.tsx:84-107 | both values are stored, both fields set and the role's home route pushed |
| AuthContext.AuthProvider.Login | frontend/src/contexts/AuthContext.tsx:66-111 | a refusal reports the server's error or 'Login failed' and changes nothing; an acceptance stores and sets token and user and goes to the role's home |
| AuthContext.AuthProvider.Register | frontend/src/contexts/AuthContext.tsx:113-158 | as login, with 'Registration failed' |
| AuthContext.AuthProvider.Logout | frontend/src/contexts/AuthContext.tsx:160-166 | both keys leave the storage, the user is signed out and the login page is pushed |
| AuthContext.LoginSurvivesReload | frontend/src/contexts/AuthContext.tsx:49-111 | a provider restored from what a login stored holds the same user and token, when the codec reads back what it wrote |
| AuthContext.LogoutSurvivesReload | frontend/src/contexts/AuthContext.tsx:49-166 | after a logout a reload restores no one |
| ProtectedRoute.DeniedRoute | frontend/src/components/ProtectedRoute.tsx:30-41 | ADMIN and HR go to /dashboard, MANAGER to /manager/approvals, EMPLOYEE to /employee/profile, any other role nowhere |
| ProtectedRoute.Guard | frontend/src/components/ProtectedRoute.tsx:21-79 | the spinner while loading; signed out, nothing and the redirect (default /auth/login); a refused role, the denial view and its route; the children iff loaded, signed in and admitted, with no navigation |
| ProtectedRoute.ChildrenIffHasRole | frontend/src/components/ProtectedRoute.tsx:28-79 | under a provider the children render iff it has loaded, is authenticated and `hasRole` accepts the roles when given |
| ProtectedRoute.GuardFollowsRole | frontend/src/components/ProtectedRoute.tsx:28-79 | an admitted role sees the children with no navigation and any other the denial view |
| RegisterPage.HandleChange | frontend/src/app/auth/register/page.tsx:68-73 | the named field takes the value, every other field keeps its own, and no field goes missing |
| RegisterPage.HandleSubmit | frontend/src/app/auth/register/page.tsx:35-66 | differing passwords are refused first, then a password under 6 characters; the call goes out iff neither applies, with the five fields, and loading ends with the call's error, the fallback or none |
| RegisterPage.TypedPasswordsAreSent | frontend/src/app/auth/register/page.tsx:22-73 | typing matching passwords of at least six characters into the initial form is enough for the call to go out with what was typed |
| Store.InsertUserKeepsValid | Backend/src/controllers/authController.js:17-30 | a user with the next id and an unused email keeps ids distinct and below the counter and emails unique |
| Store.InsertEmployeeKeepsValid | Backend/src/controllers/authController.js:35-44 | an employee with the next id and an unlinked user keeps ids distinct and below the counter and one profile per user |

## Left out

- Database access: Prisma calls are in-memory tables. `include` joins, `orderBy` and other database-side sorting, `groupBy` statistics (users by role, employees by department), schema defaults and foreign-key checks are not modelled. Where a handler reads a join, the joined value is passed in.
- The database schema is not part of this model. New rating and request rows are taken to start PENDING, and `user.employees` is taken as the employees whose `adminId` is the user. Without foreign keys, `deleteEmployee` succeeds whenever its checks pass.
- The Gemini request, its JSON parsing, argon2 hashing and JWT signing and verification are function parameters. Their own behaviour is outside the model.
- Floating-point rounding: scores are `real`. The two-decimal rounding of the skill index and match percentage, and the percentage display, are not modelled.
- Dates are integers or opaque strings. `new Date()`, the "New This Month" card and `toLocaleDateString` formatting are not modelled.
- Concurrency: `Promise.all`, `setTimeout` redirects, overlapping reloads and React's batching of state updates are not modelled. A handler's awaited calls are given as their outcomes.
- Path and body numbers are taken as already parsed. `parseInt`/`Number` on malformed text (NaN) is not modelled.
- Select boxes holding `''` are modelled as `None`, and numeric selections as integers.
- Rendering: JSX, styling, icons, dialogs' open/close animations and the static parts of every page are not modelled.
- The HTTP client (`frontend/src/lib/api.ts`), `RequireAuth`, `TopNav`, `Navbar`, `Sidebar`, `Navigation` and the login, dashboard, companies, admin-employees and employee pages are not part of this model.
- Routes, `app.js`, the seed script, `companyController.js`, `userController.js` and `fix_files.py` are not part of this model.
- `getAllUsers`, `getSkills`, `getMyRequests`, `getProjectDetails` and `getMySkillRatings` only read rows. `analyzeProject` shares the partition of `createProject`, which is modelled; its response shaping is not.
- The abbreviation table of the skill matcher is a plain map. Lookups of JavaScript prototype keys (such as `constructor`) on the object literal are not modelled.
- Object key order of responses is not modelled.
- `updateEmployee` with an `id` or unknown fields in the body is not modelled: the body is the set of known fields.
- ProjectGenerate.RescaleWeight: for a general real weight only the range [1, 10] and the zero case are stated; the exact value is stated for integer weights (`ProjectGenerate.RescaleIntegerWeight`).
- HrProjectsPage.TotalAssignments: its own contract states the sign and the all-missing case; additivity is `HrProjectsPage.TotalAssignmentsSplits`.
- HrDashboardPage.PendingSum: its own contract states only the all-missing case; order independence is `HrDashboardPage.PendingSumIgnoresOrder`.
- Common.Lower: maps only the ASCII letters A-Z; JavaScript's `toLowerCase` also maps the other Unicode upper-case letters (such as `É`), whose lower-casing is not modelled.
- Common.Trim: strings are sequences of code points, not of UTF-16 units; the set of white space is JavaScript's, but lone surrogates are not modelled.
- ProjectGenerate.ProjectName: the 120-character cut counts code points, while JavaScript's `substring` counts UTF-16 units; the two differ for names holding characters outside the Basic Multilingual Plane.
- GeminiService.ValidateReply: an error carries the inner message only; the prefix that the catch at lines 62-70 of geminiService.js puts in front of it (or its API-key text) is not modelled, and `generateProject` answers 500 whatever the text.
- GeminiService.ValidateItems: an element's name is a string or absent; a truthy name of another JSON type, whose `trim` throws, is not representable (in the source it fails the analysis, as a missing name does).
- HrDashboardPage.SortNewestFirst: states sortedness and the same projects, not stability; projects with equal creation dates may end in any order, while JavaScript's `sort` keeps their original order.
- ProjectCreation.CreateProject: every requested skill is taken to carry a string `skillName`; a non-string one makes the matcher's `toLowerCase` throw, which the handler answers with 500, and that path is not modelled.
- RegisterPage.HandleSubmit: the password-length check (`< 6`) counts code points, while JavaScript's `length` counts UTF-16 units.

## Findings

| source | as written | input that shows it | evidently intended | confidence | as-written member | corrected member |
|---|---|---|---|---|---|---|
| Backend/src/controllers/projectController.js:727 | `approveAssignment` compares the assignment's manager with `req.user.id` (lines 752-758) | any token issued by login or register, which carries `userId` and `role` but no `id`: the comparison with `undefined` always fails, so every decision is refused with 403 | `req.user.id ?? req.user.userId`, as `selectEmployees` reads it at line 551 | not executed | ProjectAssignments.CallerAsWritten, ProjectAssignments.SignedTokenIsAlwaysForbidden | Common.ActingUserId, ProjectAssignments.ManagerCanDecide, ProjectAssignments.ApproveAssignment |
| frontend/src/app/hr/candidates/page.tsx:103 | `loadProjects` calls `data.filter(...)` on the reply of `GET /projects/all` | `getAllProjects` answers the object `{ totalProjects, projects }` (Backend/src/controllers/projectController.js:836-838): `data.filter` is not a function, the catch shows the TypeError and the page never lists a project | normalise the reply as the HR projects page does (`Array.isArray(data) ? data : data.projects \|\| []`) before filtering | not executed | HrCandidatesPage.LoadProjectsAsWritten, HrCandidatesPage.ServerReplyNeverListsProjects | HrCandidatesPage.LoadProjects, HrCandidatesPage.LoadSelectsFirstProject |
