# A Dafny model of the agile Scrum tool's core

This project models the logic of a Spring Boot / React Scrum tool. It covers:

- Projects: project key generation and project validation.
- Release plans: creation, update, release keys, resolving an id or a key, and assigning and unassigning stories.
- User stories and user accounts: story creation, read permission, listing, updates, registration, passwords, profiles, roles and deletion.
- The Jira export: configuration merge and validation, the description document, the issue payload, metadata selection and the browse URL.
- The project-level permission checks of method security, and the client's role predicates.
- The client components: backlog selection and export, the backlog card's optimistic toggles, the board card's drag gate and release link, the board column's points and drop handler, the release-plan list, card and dialog, and the two role editors.

Everything is pure functions over immutable datatypes:

- The repositories are finite maps in one `Domain.Store` record.
- A thrown exception is `Failure(error)`, and a failure leaves the store unchanged.
- Calls the model cannot see become parameters:
  - the BCrypt `encode`/`matches` pair;
  - `User.isSystemAdmin`;
  - date-string parsing;
  - the answers of `fetch` and of the Jira REST endpoints, modelled as datatypes of possible replies.
- Client state is a record.
- Each handler is a function from the old state and the reply to the new state and its effects: the request sent, the alert shown, and whether the list is fetched again.

Modules follow the source files:

- `ProjectService`, `ReleasePlanService`, `UserStoryService`, `UserService` and `JiraService` (with `JiraExportRequest`).
- `MethodSecurity` models `CustomMethodSecurityExpressionRoot`.
- `RoleUtils` models `roleUtils.ts`.
- `ProductBacklog`, `BacklogStoryCard`, `StoryCard`, `KanbanColumn`, `ReleasePlans`, `ReleasePlanCard` and `ReleasePlanModal` model the client components of the same names.
- `RoleEditor` is the checklist logic that `AccountManagement` and `ProjectMembers` share.
- Shared modules:
  - `Wrappers` holds `Option` and `Result`.
  - `Text` holds character classes, Java and JavaScript trimming, ASCII case mapping, decimal rendering and an ASCII-digit reading of `Long.parseLong`.
  - `Seqs` holds order-preserving filters and removal.
  - `Domain` holds the entities and the store.
  - `JsNumber` is JavaScript's `Number(string)`.

Where the code and its documentation disagree, the model follows the code:

- The backlog exports the selected stories in the order of the local story list, not in the order they were selected (`frontend/src/components/ProductBacklog.tsx:91-94`).
- `JiraExportRequest.isNotBlank` uses `trim()`, which strips only characters up to U+0020. So `hasCredentials` implies the service's base validation only for values without other whitespace. An ideographic space U+3000 passes `isNotBlank` but not `hasText`: see `JiraService.WideSpaceGap`.
- `deleteUser` deletes the user's rows of the `project_members` join table. It leaves the `project_member_roles` rows alone.
- Story points are integers with no range check (`UserStoryService.EstimationHasNoRangeCheck`).
- The board card opens the editor only for a non-zero id, because the check is `onEdit && id`.
- After a successful role save, `ProjectMembers` keeps the selection, while `AccountManagement` clears it.
- `ProjectMembers` clears the error on cancel and on edit; `AccountManagement` does neither.
- The status filter of the release-plan list replaces only the first space, and the card label replaces only the first underscore.
- Assigning a story to a release plan, or unassigning it, answers with the plan's story count from before the change. The plan's story collection is loaded inside the same transaction but before the story's new link is written, so the count misses a newly assigned story and still includes an unassigned one (`ReleasePlanService.AssignLinksStory`, `ReleasePlanService.UnassignCountIncludesStory`).

## Model

| member | source | states |
|---|---|---|
| ProjectService.ValidateProjectDto | src/main/java/com/asu/ser515/agiletool/service/ProjectService.java:129-163 | succeeds iff the request exists, the trimmed name is non-empty, the name has at most 200 UTF-16 units, the member list is non-empty, every entry has a user id and a role, and no id repeats; a missing request, a blank name, a long name and a missing or empty member list each get their own message, in source order, and after them the member loop decides |
| ProjectService.CheckMembers | src/main/java/com/asu/ser515/agiletool/service/ProjectService.java:147-162 | the member loop succeeds iff every entry is complete and no id repeats one already seen; the first bad entry decides the message |
| ProjectService.EntryError | src/main/java/com/asu/ser515/agiletool/service/ProjectService.java:149-158 | the message for an entry the loop refuses: a missing id before a missing role, and a repeated id named in the message |
| ProjectService.FirstBadEntryDecides | src/main/java/com/asu/ser515/agiletool/service/ProjectService.java:147-161 | the first entry that lacks an id, lacks a role or repeats an id seen before decides the exact error, whatever follows it |
| ProjectService.CleanName | src/main/java/com/asu/ser515/agiletool/service/ProjectService.java:168-171 | the cleaned name holds only upper-case letters, digits and single spaces |
| ProjectService.CleanNameContent | src/main/java/com/asu/ser515/agiletool/service/ProjectService.java:168-171 | its non-space characters are exactly the upper-cased ASCII letters and digits of the trimmed name, in order |
| ProjectService.CollapseSpaces | src/main/java/com/asu/ser515/agiletool/service/ProjectService.java:170 | every whitespace run becomes one space: no two adjacent spaces, no other whitespace, empty iff the input is empty |
| ProjectService.JavaSplit | src/main/java/com/asu/ser515/agiletool/service/ProjectService.java:174 | a string without whitespace splits into itself alone |
| ProjectService.InitialsLoop | src/main/java/com/asu/ser515/agiletool/service/ProjectService.java:177-183 | appends the first letters of the non-empty words while fewer than 10 are collected; the result is the accumulator plus the longest fitting prefix of all initials |
| ProjectService.BaseKey | src/main/java/com/asu/ser515/agiletool/service/ProjectService.java:168-196 | the base key always has between 2 and 10 characters |
| ProjectService.BaseKeyEmpty | src/main/java/com/asu/ser515/agiletool/service/ProjectService.java:189-191 | a name whose cleanup leaves nothing gets "PROJ" |
| ProjectService.BaseKeySingleWord | src/main/java/com/asu/ser515/agiletool/service/ProjectService.java:184-196 | a single word gives its first min(10, length) characters; a one-character word gets "X" appended |
| ProjectService.BaseKeyMultiWord | src/main/java/com/asu/ser515/agiletool/service/ProjectService.java:177-196 | several words give their initials, capped at ten, with "X" appended to a lone initial |
| ProjectService.CandidateShape | src/main/java/com/asu/ser515/agiletool/service/ProjectService.java:202-208 | the key tried for counter c is a prefix of the base followed by the decimal counter, at most 10 characters long |
| ProjectService.CutFor | src/main/java/com/asu/ser515/agiletool/service/ProjectService.java:204-207 | the base as cut for counter c is a prefix of it, and base and counter together fit in ten characters unless the base is kept whole |
| ProjectService.TruncationPersistsAll | src/main/java/com/asu/ser515/agiletool/service/ProjectService.java:204-207 | truncating the base for one counter changes no later candidate, so the loop's mutation of the base is harmless |
| ProjectService.Probe | src/main/java/com/asu/ser515/agiletool/service/ProjectService.java:199-210 | a key the collision loop returns is free and at most 10 characters long |
| ProjectService.ProbeFound | src/main/java/com/asu/ser515/agiletool/service/ProjectService.java:199-210 | the returned key is the candidate of the first counter whose candidate is free |
| ProjectService.ProbeExhausted | src/main/java/com/asu/ser515/agiletool/service/ProjectService.java:200-210 | the loop fails exactly when every candidate up to Integer.MAX_VALUE is taken |
| ProjectService.GenerateProjectKey | src/main/java/com/asu/ser515/agiletool/service/ProjectService.java:165-213 | a free base key is returned unchanged; any returned key is not taken and has 2 to 10 characters; otherwise it is the first free candidate |
| ProjectService.ProjectKeys | src/main/java/com/asu/ser515/agiletool/service/ProjectService.java:201 | the keys `existsByProjectKey` reports taken: exactly the keys of stored projects |
| ProjectService.GeneratedKeyIsUnused | src/main/java/com/asu/ser515/agiletool/service/ProjectService.java:199-210 | asked against the stored keys, a generated key belongs to no stored project |
| ProjectService.LookupMembers | src/main/java/com/asu/ser515/agiletool/service/ProjectService.java:64-77 | succeeds iff every requested user exists, giving exactly the requested ids; the first unknown id names the failure |
| ProjectService.MemberRows | src/main/java/com/asu/ser515/agiletool/service/ProjectService.java:83-96 | a membership row exists exactly for each requested entry, with that entry's role |
| ProjectService.CreateProject | src/main/java/com/asu/ser515/agiletool/service/ProjectService.java:31-104 | succeeds iff validation passes and all members exist; stores the trimmed name, a trimmed-or-null description, the active flag, the members and one role row per entry; the project counter advances and nothing else in the store changes |
| ProjectService.CreateProjectAllocatesFreshId | src/main/java/com/asu/ser515/agiletool/service/ProjectService.java:52 | on a store whose ids came from the counters, the new project takes an unused id and every id stays below its counter |
| ProjectService.CreateProjectOneRowPerMember | src/main/java/com/asu/ser515/agiletool/service/ProjectService.java:83-95 | every new membership row belongs to the new project and carries the role its entry requested |
| ReleasePlanService.ReleaseKey | src/main/java/com/asu/ser515/agiletool/service/ReleasePlanService.java:78 | "REL-" followed by a digit string whose value is the id, padded with zeros to at least three digits |
| ReleasePlanService.ReleaseKeyExamples | src/main/java/com/asu/ser515/agiletool/service/ReleasePlanService.java:78 | 7 gives "REL-007" and 1234 gives "REL-1234" |
| ReleasePlanService.ReleaseKeyInjective | src/main/java/com/asu/ser515/agiletool/service/ReleasePlanService.java:78 | distinct plans get distinct keys |
| ReleasePlanService.ReleaseKeyIsNotNumeric | src/main/java/com/asu/ser515/agiletool/service/ReleasePlanService.java:176-181 | a release key never parses as a long, so identifier resolution looks it up by key |
| ReleasePlanService.Create | src/main/java/com/asu/ser515/agiletool/service/ReleasePlanService.java:38-84 | rejects a blank name, a missing start, a missing target, a missing project id, a target before the start and an unknown project, in that order; otherwise stores the plan with every field set from the request, status PLANNED by default, the padded key and the named creator; the plan counter advances and nothing else in the store changes |
| ReleasePlanService.CreateAllocatesFreshId | src/main/java/com/asu/ser515/agiletool/service/ReleasePlanService.java:76 | on a store whose ids came from the counters, the new plan takes an unused id and every id stays below its counter |
| ReleasePlanService.CreateAcceptsSameDay | src/main/java/com/asu/ser515/agiletool/service/ReleasePlanService.java:54-56 | equal start and target dates are accepted |
| ReleasePlanService.ToResponse | src/main/java/com/asu/ser515/agiletool/service/ReleasePlanService.java:247-277 | the response carries the plan's fields, its project's id and name, its creator's id and username, and the number of linked stories |
| ReleasePlanService.LinkedStories | src/main/java/com/asu/ser515/agiletool/service/ReleasePlanService.java:270-274 | the stories counted for a plan are exactly the stored stories linked to it |
| ReleasePlanService.ApplyUpdate | src/main/java/com/asu/ser515/agiletool/service/ReleasePlanService.java:105-122 | each supplied field overwrites, a blank name does not, and every other field is unchanged |
| ReleasePlanService.Update | src/main/java/com/asu/ser515/agiletool/service/ReleasePlanService.java:100-130 | fails for an unknown plan and for merged dates out of order, leaving the store as it was; otherwise stores the merged plan |
| ReleasePlanService.UpdateNothingIsIdentity | src/main/java/com/asu/ser515/agiletool/service/ReleasePlanService.java:105-128 | an update with no fields leaves a well-dated plan as it was |
| ReleasePlanService.UpdateIdempotent | src/main/java/com/asu/ser515/agiletool/service/ReleasePlanService.java:100-130 | applying the same update twice gives what applying it once gave |
| ReleasePlanService.FindByKey | src/main/java/com/asu/ser515/agiletool/service/ReleasePlanService.java:180-181 | finds a plan iff one carries the key, and then one of them |
| ReleasePlanService.ResolvePlan | src/main/java/com/asu/ser515/agiletool/service/ReleasePlanService.java:168-182 | a blank identifier is rejected; a trimmed identifier that parses as a long is looked up by id only; anything else by key only |
| ReleasePlanService.PaddedIdReads | src/main/java/com/asu/ser515/agiletool/service/ReleasePlanService.java:168-176 | an id with spaces around it passes the blank check and parses, once trimmed, as that id |
| ReleasePlanService.ResolveById | src/main/java/com/asu/ser515/agiletool/service/ReleasePlanService.java:173-178 | a plan's decimal id, with spaces around it, resolves to that plan |
| ReleasePlanService.ResolveByKey | src/main/java/com/asu/ser515/agiletool/service/ReleasePlanService.java:179-181 | a plan's own generated key resolves to it when no other plan shares the key |
| ReleasePlanService.AssignToPlan | src/main/java/com/asu/ser515/agiletool/service/ReleasePlanService.java:219-245 | a plan or story without a project is an illegal state; different projects are rejected; otherwise only the story's plan changes, and the answer describes the plan as it was before the change |
| ReleasePlanService.AssignStory | src/main/java/com/asu/ser515/agiletool/service/ReleasePlanService.java:190-199 | the plan lookup fails first, then the story lookup, then the assignment rules apply |
| ReleasePlanService.AssignStoryByIdentifier | src/main/java/com/asu/ser515/agiletool/service/ReleasePlanService.java:167-188 | the identifier is resolved first, then the story is looked up and assigned |
| ReleasePlanService.Unassign | src/main/java/com/asu/ser515/agiletool/service/ReleasePlanService.java:201-217 | succeeds iff plan and story exist and the story is on this plan; then only that story's plan is cleared, and the answer describes the plan as it was before the change |
| ReleasePlanService.AssignThenUnassign | src/main/java/com/asu/ser515/agiletool/service/ReleasePlanService.java:190-217 | assigning an unlinked story and unassigning it again restores the store |
| ReleasePlanService.AssignLinksStory | src/main/java/com/asu/ser515/agiletool/service/ReleasePlanService.java:219-277 | an assignment adds exactly the story to the plan's linked stories; the count in the answer is the count before, one less than after for a story not yet on the plan |
| ReleasePlanService.UnassignCountIncludesStory | src/main/java/com/asu/ser515/agiletool/service/ReleasePlanService.java:201-277 | unassigning removes exactly the story from the plan's linked stories, while the count in the answer still includes it |
| UserStoryService.CheckPermission | src/main/java/com/asu/ser515/agiletool/service/UserStoryService.java:40-61 | succeeds iff the user is a member of the project; an unknown user or project is an illegal state, a non-member a security error |
| UserStoryService.GetStory | src/main/java/com/asu/ser515/agiletool/service/UserStoryService.java:189-201 | the story must exist; one with a project needs membership, one without a project is returned to anyone |
| UserStoryService.GetStorySecurity | src/main/java/com/asu/ser515/agiletool/service/UserStoryService.java:57-61 | for a known user and project, the read fails exactly for a non-member, with "Access denied" |
| UserStoryService.StoryKey | src/main/java/com/asu/ser515/agiletool/service/UserStoryService.java:93-94 | the project's key, or "GLOBAL", a dash and the id padded to three digits |
| UserStoryService.StoryKeyInjective | src/main/java/com/asu/ser515/agiletool/service/UserStoryService.java:93-94 | within one project, distinct stories get distinct keys |
| UserStoryService.Create | src/main/java/com/asu/ser515/agiletool/service/UserStoryService.java:63-98 | rejects a blank title, then a blank description; a missing project id means project 1; the story gets the given fields, status NEW, MEDIUM when no priority is given, its key, and no points, persona texts, assignee, creator, plan or flags; the story counter advances and nothing else in the store changes |
| UserStoryService.CreateAllocatesFreshId | src/main/java/com/asu/ser515/agiletool/service/UserStoryService.java:90 | on a store whose ids came from the counters, the new story takes an unused id and every id stays below its counter |
| UserStoryService.KeepVisible | src/main/java/com/asu/ser515/agiletool/service/UserStoryService.java:106-111 | keeps exactly the ids visible to the user, and keeps an ascending list ascending |
| UserStoryService.ListAll | src/main/java/com/asu/ser515/agiletool/service/UserStoryService.java:100-112 | fails for an unknown user; otherwise the strictly ascending ids of exactly the stories whose project lists the user |
| UserStoryService.ListedAreReadable | src/main/java/com/asu/ser515/agiletool/service/UserStoryService.java:106-111 | a story is listed exactly when it has a project and reading it would pass the permission check |
| UserStoryService.UpdateUserStory | src/main/java/com/asu/ser515/agiletool/service/UserStoryService.java:120-146 | read access first, then a missing or blank title fails with "Title is required", then a missing or blank description with "Description is required"; the priority is kept when none is given, while acceptance criteria and business value are overwritten even when null |
| UserStoryService.ResendIsIdentity | src/main/java/com/asu/ser515/agiletool/service/UserStoryService.java:120-146 | sending a readable story's own fields back, without a priority, leaves the store unchanged |
| UserStoryService.UpdateUserStoryIdempotent | src/main/java/com/asu/ser515/agiletool/service/UserStoryService.java:120-146 | applying an update a second time to its result gives the same store |
| UserStoryService.Modify | src/main/java/com/asu/ser515/agiletool/service/UserStoryService.java:189-201 | a single-field update succeeds iff the story is readable and changes only that story |
| UserStoryService.UpdateEstimation | src/main/java/com/asu/ser515/agiletool/service/UserStoryService.java:156-161 | stores any point value, with no range check, changing nothing else |
| UserStoryService.UpdateStatus | src/main/java/com/asu/ser515/agiletool/service/UserStoryService.java:163-173 | a missing status is rejected before the lookup; otherwise only the status changes |
| UserStoryService.UpdateSprintReady | src/main/java/com/asu/ser515/agiletool/service/UserStoryService.java:175-180 | only the sprint-ready flag changes |
| UserStoryService.UpdateStarred | src/main/java/com/asu/ser515/agiletool/service/UserStoryService.java:182-187 | only the starred flag changes |
| UserStoryService.UpdateMvp | src/main/java/com/asu/ser515/agiletool/service/UserStoryService.java:209-214 | only the MVP flag changes |
| UserStoryService.StarredRoundTrip | src/main/java/com/asu/ser515/agiletool/service/UserStoryService.java:182-187 | setting the flag and then setting it back restores the store |
| UserStoryService.EstimationHasNoRangeCheck | src/main/java/com/asu/ser515/agiletool/service/UserStoryService.java:157-160 | negative and zero estimates are stored as given |
| Domain.NewStory | src/main/java/com/asu/ser515/agiletool/models/UserStory.java:51-72 | a fresh story has status NEW, priority MEDIUM, all flags false, and no points or business value |
| Domain.ParseRole | src/main/java/com/asu/ser515/agiletool/models/UserRole.java:3-7 | `valueOf` finds exactly the role whose constant name is given |
| Domain.Ascending | src/main/java/com/asu/ser515/agiletool/service/UserStoryService.java:106 | `findAllByOrderByIdAsc`: the ids of a set, strictly ascending, each exactly once |
| Domain.FindByUsername | src/main/java/com/asu/ser515/agiletool/service/UserService.java:70-72 | finds a user with that name, or reports that none has it |
| UserService.Register | src/main/java/com/asu/ser515/agiletool/service/UserService.java:36-68 | rejects a taken username, a taken email, no roles, more than one role and SYSTEM_ADMIN, each with its own message, in that order; stores the username, email, full name, role, encoded password and the active flag the request carried (true when absent); the user counter advances and nothing else in the store changes; asks to join a project only for a non-blank code |
| UserService.RegisterAllocatesFreshId | src/main/java/com/asu/ser515/agiletool/service/UserService.java:61 | on a store whose ids came from the counters, the new user takes an unused id and every id stays below its counter |
| UserService.RegisteredIsFindable | src/main/java/com/asu/ser515/agiletool/service/UserService.java:61 | a registered account is found under its username afterwards |
| UserService.RegisterNeverAdmin | src/main/java/com/asu/ser515/agiletool/service/UserService.java:51-57 | registration never creates a system administrator: the single stored role is another one |
| UserService.ChangePassword | src/main/java/com/asu/ser515/agiletool/service/UserService.java:113-127 | fails for an unknown user, a wrong current password, and a new password equal to the current one; otherwise stores only the encoded new password |
| UserService.PasswordChangeTakesEffect | src/main/java/com/asu/ser515/agiletool/service/UserService.java:117-126 | with an encoder whose hashes match their input, the new password matches afterwards, and the change leaves the username lookup as it was |
| UserService.FindByEmail | src/main/java/com/asu/ser515/agiletool/service/UserService.java:138 | finds a user with that email iff the email is taken |
| UserService.UpdateProfile | src/main/java/com/asu/ser515/agiletool/service/UserService.java:129-146 | the full name is set whenever given; a non-empty email is set unless another user owns it |
| UserService.UpdateProfileEmailRule | src/main/java/com/asu/ser515/agiletool/service/UserService.java:137-143 | with unique emails, a new email is refused exactly when a different user owns it, so the user's own email is accepted |
| UserService.UpdateRoles | src/main/java/com/asu/ser515/agiletool/service/UserService.java:152-162 | an unknown user fails first, then a missing or empty role set; otherwise only the roles are replaced |
| UserService.UpdateRolesLastWins | src/main/java/com/asu/ser515/agiletool/service/UserService.java:160 | the result does not depend on the roles held before: two replacements equal the second alone |
| UserService.Deactivate | src/main/java/com/asu/ser515/agiletool/service/UserService.java:78-84 | only the active flag changes, to false |
| UserService.DeactivateIdempotent | src/main/java/com/asu/ser515/agiletool/service/UserService.java:82 | deactivating twice is deactivating once |
| UserService.DeleteUser | src/main/java/com/asu/ser515/agiletool/service/UserService.java:86-106 | removes the user, their join-table memberships, and every story creator, story assignee and plan creator reference to them |
| UserService.Unref | src/main/java/com/asu/ser515/agiletool/service/UserService.java:90-105 | a reference to the deleted user becomes null and any other reference is kept |
| UserService.DeleteLeavesNoReference | src/main/java/com/asu/ser515/agiletool/service/UserService.java:90-105 | afterwards no project member list, story or plan refers to the deleted user, and other users are kept |
| JiraService.Prefer | src/main/java/com/asu/ser515/agiletool/service/JiraService.java:308-313 | one setting of `merge`: it is one of the two values, and has text iff either has |
| JiraService.Merge | src/main/java/com/asu/ser515/agiletool/service/JiraService.java:303-315 | a null fallback returns this config; otherwise each setting comes from this config when it has text, else from the fallback |
| JiraService.MergeAssociative | src/main/java/com/asu/ser515/agiletool/service/JiraService.java:303-315 | layering three configs gives the same result however the merges are grouped |
| JiraService.MergeIdentities | src/main/java/com/asu/ser515/agiletool/service/JiraService.java:303-315 | a config merged over itself is unchanged, and a config without text merged over another gives the other |
| JiraService.EffectiveConfig | src/main/java/com/asu/ser515/agiletool/service/JiraService.java:52-55 | no override means the defaults; otherwise the override merged over the defaults |
| JiraService.ValidateBaseConfiguration | src/main/java/com/asu/ser515/agiletool/service/JiraService.java:158-165 | passes iff base URL, user email, API token and project key all have text |
| JiraService.ValidationIgnoresOptionalSettings | src/main/java/com/asu/ser515/agiletool/service/JiraService.java:158-165 | the issue type and story-points settings play no part in the validation |
| JiraService.EffectiveConfigValid | src/main/java/com/asu/ser515/agiletool/service/JiraService.java:53-60 | an override passes validation iff, for each required setting, it or the default has text |
| JiraService.MapPriority | src/main/java/com/asu/ser515/agiletool/service/JiraService.java:149-156 | maps CRITICAL, HIGH, MEDIUM and LOW to Highest, High, Medium and Low; each name maps back to its priority |
| JiraService.MapPriorityInjective | src/main/java/com/asu/ser515/agiletool/service/JiraService.java:149-156 | no two priorities share a Jira name |
| JiraService.OrPlaceholder | src/main/java/com/asu/ser515/agiletool/service/JiraService.java:145-147 | the value when it has text, else the placeholder |
| JiraService.DescriptionDocument | src/main/java/com/asu/ser515/agiletool/service/JiraService.java:112-130 | three labelled paragraphs with placeholders for blank parts, and a fourth Business Value paragraph exactly when the value is non-null |
| JiraService.ParagraphsNeverBlank | src/main/java/com/asu/ser515/agiletool/service/JiraService.java:115-123 | every paragraph has text |
| JiraService.BusinessValueRoundTrip | src/main/java/com/asu/ser515/agiletool/service/JiraService.java:121-123 | what follows the Business Value label parses back to the story's value |
| JiraService.BuildIssuePayload | src/main/java/com/asu/ser515/agiletool/service/JiraService.java:93-110 | project, issue type, summary and description always; priority iff the story has one; the points key iff the story has points and the field id has text |
| JiraService.PayloadOptionalFields | src/main/java/com/asu/ser515/agiletool/service/JiraService.java:101-107 | with a points field id that is not a fixed key, the payload has a priority iff the story has one, and a points entry iff the story has points and the field id has text |
| JiraService.FirstWhere | src/main/java/com/asu/ser515/agiletool/service/JiraService.java:215-220 | the first index satisfying the test, or none when no element does |
| JiraService.WrapCallError | src/main/java/com/asu/ser515/agiletool/service/JiraService.java:225-230 | a failed call becomes an illegal state whose message is the first prefix and the status text and body for an error response, or the second prefix and the message (null printed as "null") for a client exception |
| JiraService.WrapTellsKindsApart | src/main/java/com/asu/ser515/agiletool/service/JiraService.java:225-230 | an error response and a client exception never give the same error when the two prefixes start differently |
| JiraService.FailuresNameTheirKind | src/main/java/com/asu/ser515/agiletool/service/JiraService.java:84-254 | for the issue-type lookup, the field lookup and the issue POST alike, an error response and a client exception never produce the same error |
| JiraService.IsStoryType | src/main/java/com/asu/ser515/agiletool/service/JiraService.java:216-217 | an issue type named "story" or "user story" in any case; a type without a name counts as named "" |
| JiraService.IsStoryPointsField | src/main/java/com/asu/ser515/agiletool/service/JiraService.java:243-244 | a field whose lower-cased name contains "story point"; a field without a name counts as named "" |
| JiraService.SelectIssueTypeId | src/main/java/com/asu/ser515/agiletool/service/JiraService.java:198-232 | an error response fails with "Failed to fetch JIRA issue types: ", its status text, " - " and its body; a client exception with "Error calling JIRA API for issue types: " and its message; missing projects or issue types are errors; the first type named "story" or "user story" (ignoring case) wins, else the first type's id, else an error |
| JiraService.StoryTypeWins | src/main/java/com/asu/ser515/agiletool/service/JiraService.java:215-219 | a story type listed before any other story type is the one chosen |
| JiraService.SelectStoryPointsFieldId | src/main/java/com/asu/ser515/agiletool/service/JiraService.java:234-255 | an error response fails with "Failed to fetch JIRA fields: " and its status text and body; a client exception with "Error calling JIRA API for fields: " and its message; an empty field list is an error; otherwise the id of the first field whose lower-cased name contains "story point", else an error |
| JiraService.ResolveConfig | src/main/java/com/asu/ser515/agiletool/service/JiraService.java:174-196 | settings with text are kept and metadata is fetched only for the missing ones; resolution succeeds when each missing setting's lookup succeeds, and a failing story-points lookup fails it with that lookup's error; other settings pass through |
| JiraService.ResolveNeedsOnlyMissingLookups | src/main/java/com/asu/ser515/agiletool/service/JiraService.java:174-196 | resolution succeeds iff every missing setting's lookup succeeds; the issue-type error is reported before the story-points error |
| JiraService.ResolveSettles | src/main/java/com/asu/ser515/agiletool/service/JiraService.java:174-196 | a resolved config has both ids, so resolving it again returns it unchanged whatever metadata the server lists |
| JiraService.BrowseUrl | src/main/java/com/asu/ser515/agiletool/service/JiraService.java:79-81 | present exactly when the key and the base URL have text, and then base URL + "/browse/" + key |
| JiraService.CreateIssue | src/main/java/com/asu/ser515/agiletool/service/JiraService.java:59-91 | an unconfigured config fails before any call, and a failed resolution fails with its error; the issue is created iff resolution, payload and a successful answer with a body all succeed, and then its key, id and self link are the body's; an error response fails with "JIRA API error: " and its status text and body, a client exception with "Error calling JIRA API: " and its message, and any other answer with the status |
| JiraService.PayloadOfResolved | src/main/java/com/asu/ser515/agiletool/service/JiraService.java:60-65 | a validated config with a resolved issue type always builds a payload |
| JiraService.CreateIssueFromStory | src/main/java/com/asu/ser515/agiletool/service/JiraService.java:48-57 | a created issue implies the effective config was configured; without an override the defaults are used |
| JiraService.NotBlankIff | src/main/java/com/asu/ser515/agiletool/dto/JiraExportRequest.java:67-69 | a value is not blank iff it is non-null with a character above U+0020 |
| JiraService.IsNotBlank | src/main/java/com/asu/ser515/agiletool/dto/JiraExportRequest.java:67-69 | a value is not blank when it is present and not empty after `trim()` |
| JiraService.HasCredentials | src/main/java/com/asu/ser515/agiletool/dto/JiraExportRequest.java:59-65 | the base URL, email, token, project key and issue type id are all not blank; the story-points field is not required |
| JiraService.HasCredentialsIgnoresPointsField | src/main/java/com/asu/ser515/agiletool/dto/JiraExportRequest.java:59-65 | the story-points field id does not affect `hasCredentials` |
| JiraService.CredentialsImplyBaseConfigured | src/main/java/com/asu/ser515/agiletool/dto/JiraExportRequest.java:59-65 | for values free of whitespace above U+0020, `hasCredentials` implies the base validation |
| JiraService.NotBlankGivesText | src/main/java/com/asu/ser515/agiletool/dto/JiraExportRequest.java:67-69 | without whitespace above U+0020, not blank implies has text |
| JiraService.CredentialsStrictlyStronger | src/main/java/com/asu/ser515/agiletool/dto/JiraExportRequest.java:59-65 | a request without an issue type id passes base validation but fails `hasCredentials` |
| JiraService.WideSpaceGap | src/main/java/com/asu/ser515/agiletool/dto/JiraExportRequest.java:67-69 | a U+3000 value is not blank by `trim()` yet lacks text, so the implication needs its side condition |
| JiraService.GapFor | src/main/java/com/asu/ser515/agiletool/dto/JiraExportRequest.java:59-69 | any whitespace character above U+0020, as the value of each credential field, passes `hasCredentials` yet fails the base validation |
| MethodSecurity.ValueOf | src/main/java/com/asu/ser515/agiletool/security/CustomMethodSecurityExpressionRoot.java:39 | succeeds iff the name is a role's constant name, and otherwise fails naming it |
| MethodSecurity.ProjectRoles | src/main/java/com/asu/ser515/agiletool/security/CustomMethodSecurityExpressionRoot.java:40-41 | exactly the roles of the user's membership rows in the project |
| MethodSecurity.HasRoleInProject | src/main/java/com/asu/ser515/agiletool/security/CustomMethodSecurityExpressionRoot.java:31-45 | false for an unknown user, true for a system admin; otherwise an invalid name throws, and a valid role is checked against the project roles |
| MethodSecurity.FirstDecisive | src/main/java/com/asu/ser515/agiletool/security/CustomMethodSecurityExpressionRoot.java:58-63 | the position where the loop stops: no earlier name decides, and the name there decides |
| MethodSecurity.AnyRoleVerdict | src/main/java/com/asu/ser515/agiletool/security/CustomMethodSecurityExpressionRoot.java:58-64 | the loop over role names: the first name that is not a role fails, the first held role answers true, and running out answers false |
| MethodSecurity.AnyRoleVerdictMeaning | src/main/java/com/asu/ser515/agiletool/security/CustomMethodSecurityExpressionRoot.java:58-64 | the loop answers at its stopping position: false past the end, an error on an invalid name, true on a held role |
| MethodSecurity.VerdictFalseMeaning | src/main/java/com/asu/ser515/agiletool/security/CustomMethodSecurityExpressionRoot.java:58-64 | the loop answers false iff no name decides it |
| MethodSecurity.VerdictStep | src/main/java/com/asu/ser515/agiletool/security/CustomMethodSecurityExpressionRoot.java:58-63 | one iteration: an invalid name throws, a held role answers true, any other role moves on to the next name |
| MethodSecurity.AnyRoleLoop | src/main/java/com/asu/ser515/agiletool/security/CustomMethodSecurityExpressionRoot.java:58-64 | the imperative loop, name by name, computes the verdict of the recursive definition |
| MethodSecurity.HasAnyRoleInProject | src/main/java/com/asu/ser515/agiletool/security/CustomMethodSecurityExpressionRoot.java:47-67 | false for an unknown user, true for a system admin; otherwise the loop over the project roles |
| MethodSecurity.AnyRoleInProject | src/main/java/com/asu/ser515/agiletool/security/CustomMethodSecurityExpressionRoot.java:47-67 | an unknown user gets false, a system admin true, and anyone else the verdict over the roles held in the project |
| MethodSecurity.IsMemberOfProject | src/main/java/com/asu/ser515/agiletool/security/CustomMethodSecurityExpressionRoot.java:69-79 | false for an unknown user; for a non-admin, the existence of a membership row |
| MethodSecurity.SingleRoleAgreement | src/main/java/com/asu/ser515/agiletool/security/CustomMethodSecurityExpressionRoot.java:31-67 | for one valid role name, the any-role check answers as the single-role check |
| MethodSecurity.MatchShortCircuits | src/main/java/com/asu/ser515/agiletool/security/CustomMethodSecurityExpressionRoot.java:58-63 | a held role ends the loop with true, so names after it, even invalid ones, are never parsed |
| MethodSecurity.AnyRoleOfValidNames | src/main/java/com/asu/ser515/agiletool/security/CustomMethodSecurityExpressionRoot.java:58-64 | when every name is valid, the answer is whether some named role is held; an empty list gives false |
| MethodSecurity.AdminPassesAll | src/main/java/com/asu/ser515/agiletool/security/CustomMethodSecurityExpressionRoot.java:35-37 | a system admin passes all three checks for every project |
| RoleUtils.SomeIncluded | frontend/src/utils/roleUtils.ts:17 | true iff some allowed role occurs in the user's roles |
| RoleUtils.HasAnyRole | frontend/src/utils/roleUtils.ts:15-18 | false for a missing or empty list; otherwise true iff the lists intersect |
| RoleUtils.HasAnyRoleMonotone | frontend/src/utils/roleUtils.ts:17 | granting more roles never withdraws a permission |
| RoleUtils.CanManageStories | frontend/src/utils/roleUtils.ts:24-26 | PRODUCT_OWNER or SYSTEM_ADMIN |
| RoleUtils.CanEstimateStories | frontend/src/utils/roleUtils.ts:32-34 | DEVELOPER, SCRUM_MASTER, PRODUCT_OWNER or SYSTEM_ADMIN |
| RoleUtils.CanUpdateStoryStatus | frontend/src/utils/roleUtils.ts:40-42 | DEVELOPER, SCRUM_MASTER, PRODUCT_OWNER or SYSTEM_ADMIN |
| RoleUtils.CanMarkSprintReady | frontend/src/utils/roleUtils.ts:48-50 | PRODUCT_OWNER, SCRUM_MASTER or SYSTEM_ADMIN |
| RoleUtils.CanLinkToReleasePlan | frontend/src/utils/roleUtils.ts:56-58 | PRODUCT_OWNER or SYSTEM_ADMIN |
| RoleUtils.PermissionPairs | frontend/src/utils/roleUtils.ts:24-58 | managing stories and linking to release plans coincide, and so do estimating and updating status |
| RoleUtils.SprintReadyRoles | frontend/src/utils/roleUtils.ts:48-50 | sprint-ready marking is open to PO, SM or SA and closed to a developer alone |
| RoleUtils.SystemAdminGrantsAll | frontend/src/utils/roleUtils.ts:24-58 | SYSTEM_ADMIN alone grants all five permissions |
| ProductBacklog.ToggleSelection | frontend/src/components/ProductBacklog.tsx:85-89 | checking appends the id; unchecking removes every occurrence and keeps the other ids' counts |
| Seqs.RemoveAll | frontend/src/components/ProductBacklog.tsx:87 | no occurrence of the id is left, and the other ids keep their counts |
| Seqs.RemoveAllIsFilter | frontend/src/components/ProductBacklog.tsx:87 | removing every occurrence is `filter(storyId => storyId !== id)`, so the remaining ids keep their order |
| ProductBacklog.CheckThenUncheck | frontend/src/components/ProductBacklog.tsx:85-89 | checking and then unchecking an unselected id restores the selection |
| ProductBacklog.SelectedStories | frontend/src/components/ProductBacklog.tsx:91-93 | exactly the local stories whose id is selected |
| ProductBacklog.ReadySelections | frontend/src/components/ProductBacklog.tsx:91-94 | the selected stories that are sprint-ready, in list order |
| ProductBacklog.SplitOfSelection | frontend/src/components/ProductBacklog.tsx:91-95 | the ready and not-ready lists are ordered subsequences of the selection, disjoint, and together cover it |
| ProductBacklog.ExportEnabled | frontend/src/components/ProductBacklog.tsx:216-222 | the export button is enabled when something is selected and no selected story is not sprint-ready |
| ProductBacklog.EnabledExportsAllSelected | frontend/src/components/ProductBacklog.tsx:216-222 | with the button enabled, every selected story in the list is sprint-ready and gets exported |
| ProductBacklog.FormCompleteIff | frontend/src/components/ProductBacklog.tsx:97-106 | the form is complete iff all four required fields have a non-whitespace character |
| ProductBacklog.EmptyFormIncomplete | frontend/src/components/ProductBacklog.tsx:108-111 | the form as reset is never complete |
| ProductBacklog.ExportRunMeaning | frontend/src/components/ProductBacklog.tsx:140-157 | the run sends a prefix of the ids in order; without a failure it sends all, and at the first failure it stops with that message |
| ProductBacklog.ExportRunSent | frontend/src/components/ProductBacklog.tsx:140-146 | the ids sent are a prefix of the selected stories' ids, in order |
| ProductBacklog.ExportRunClean | frontend/src/components/ProductBacklog.tsx:140-157 | no error iff every request succeeds, and then every story is sent and every answer kept |
| ProductBacklog.ExportRunStop | frontend/src/components/ProductBacklog.tsx:140-157 | a failed run stops right after the first failing request, with that request's message |
| ProductBacklog.ExportLoop | frontend/src/components/ProductBacklog.tsx:137-157 | the imperative loop computes that run |
| ProductBacklog.FailureMessage | frontend/src/components/ProductBacklog.tsx:148-175 | a refused export's message is the reply text, or a fallback naming the story when the text is empty; a thrown error gives its message, and an empty message the generic failure text; never empty |
| ProductBacklog.ExportRun | frontend/src/components/ProductBacklog.tsx:137-157 | the export loop over the ready stories: each request is sent in order, and the first failure stops the loop with its message |
| ProductBacklog.RedirectUrl | frontend/src/components/ProductBacklog.tsx:159-162 | the first truthy browse URL, else the first truthy self URL, else none; with no truthy browse URL, a result is the self URL of an answer with no truthy self URL before it |
| ProductBacklog.FirstTruthyIs | frontend/src/components/ProductBacklog.tsx:159-162 | the redirect search picks the first answer whose URL is truthy |
| ProductBacklog.ConfirmExport | frontend/src/components/ProductBacklog.tsx:123-179 | no-op without ready selections or while exporting; an incomplete form only sets the error; otherwise the run always finishes, a clean run holds every answer, there is no redirect after a failure, and the configured URL comes first, then the redirect URL of the answers |
| ProductBacklog.RedirectLevels | frontend/src/components/ProductBacklog.tsx:159-162 | the three levels of the redirect: the browse URL of the first answer that has one; failing that, the self URL of the first answer that has one; failing both, none |
| ProductBacklog.RedirectOrder | frontend/src/components/ProductBacklog.tsx:159-169 | a clean export of the ready selections finishes and goes to the configured URL when it has text, else to the redirect URL of the answers |
| ProductBacklog.MergeUpdate | frontend/src/components/ProductBacklog.tsx:258-278 | points come from the server field, then the client field, then the old value, and sprint-ready and MVP likewise; title, tags and starred come from the update when present, else the old value |
| ProductBacklog.OnUpdate | frontend/src/components/ProductBacklog.tsx:254-281 | only stories with the update's id change; order and ids are kept |
| ProductBacklog.OnUpdateIdempotent | frontend/src/components/ProductBacklog.tsx:254-281 | applying the same update twice gives what applying it once gave |
| ProductBacklog.CheckboxAsWritten | frontend/src/components/ProductBacklogStoryCard.tsx:124-128 | the card's checkbox changes only the card's own checked flag; the backlog's selection is unchanged |
| ProductBacklog.CheckboxNeverSelects | frontend/src/components/ProductBacklogStoryCard.tsx:124-128 | whatever the clicks on the card checkboxes, nothing is selected, so the export button stays disabled and confirming the export does nothing |
| ProductBacklog.Checkbox | frontend/src/components/ProductBacklog.tsx:246-249 | a checkbox wired to the backlog's toggle adds the story's id when checked and removes it when unchecked |
| ProductBacklog.OneReadySelected | frontend/src/components/ProductBacklog.tsx:91-95 | a list holding a sprint-ready story, with only that story selected, enables the export and has it among the ready selections |
| ProductBacklog.CheckedReadyStoryExports | frontend/src/components/ProductBacklog.tsx:123-135 | with the checkbox wired, checking a sprint-ready story enables the export and confirming it with a complete form runs it |
| BacklogStoryCard.PriorityClass | frontend/src/components/ProductBacklogStoryCard.tsx:58-71 | the four known priorities get their class; anything else gets priority-medium |
| BacklogStoryCard.PriorityClassNamesPriority | frontend/src/components/ProductBacklogStoryCard.tsx:58-71 | the class is "priority-" followed by one of the four known priorities, and that name maps back to the same class |
| BacklogStoryCard.PriorityClassSeparates | frontend/src/components/ProductBacklogStoryCard.tsx:58-71 | two known priorities get the same class iff they are the same |
| BacklogStoryCard.StatusClass | frontend/src/components/ProductBacklogStoryCard.tsx:73-80 | case-insensitive substring tests for progress, todo, backlog and done, in that order, defaulting to status-todo |
| BacklogStoryCard.StatusClassIgnoresCase | frontend/src/components/ProductBacklogStoryCard.tsx:73-80 | under ASCII case mapping, the class of a status is the class of its upper-cased and of its lower-cased form |
| BacklogStoryCard.WordSurvivesLower | frontend/src/components/ProductBacklogStoryCard.tsx:73-80 | a status that contains a word in any ASCII case contains it lower-cased once the status is lower-cased |
| BacklogStoryCard.ProgressWins | frontend/src/components/ProductBacklogStoryCard.tsx:73-80 | any status containing "progress" gets the in-progress class, whatever else it contains |
| BacklogStoryCard.UpdateEstimation | frontend/src/components/ProductBacklogStoryCard.tsx:82-119 | points of zero or less are refused with a message and nothing is sent; a reply adopts the server's points, a failure keeps them and shows an error |
| BacklogStoryCard.EstimateShowsStored | frontend/src/components/ProductBacklogStoryCard.tsx:98-105 | against the server's estimate update: an accepted positive estimate comes back as the stored points, so the card shows exactly the points entered, with no error |
| BacklogStoryCard.InitialState | frontend/src/components/ProductBacklogStoryCard.tsx:33-42 | a missing flag starts false, and no toggle is in flight |
| BacklogStoryCard.ClickStar | frontend/src/components/ProductBacklogStoryCard.tsx:134-138 | ignored while a star toggle is in flight; otherwise the star flips at once and the flipped value is requested |
| BacklogStoryCard.CompleteStar | frontend/src/components/ProductBacklogStoryCard.tsx:148-164 | success adopts the server's flag, failure restores the value before the click; the sprint-ready state is untouched |
| BacklogStoryCard.StarRollback | frontend/src/components/ProductBacklogStoryCard.tsx:158-163 | a failed star toggle leaves the card exactly as before the click |
| BacklogStoryCard.StarAdoptsServer | frontend/src/components/ProductBacklogStoryCard.tsx:149-151 | a successful star toggle shows the server's value, whatever the click flipped |
| BacklogStoryCard.ClickSprintReady | frontend/src/components/ProductBacklogStoryCard.tsx:174-178 | ignored without permission or while in flight; otherwise the flag flips at once and is requested |
| BacklogStoryCard.CompleteSprintReady | frontend/src/components/ProductBacklogStoryCard.tsx:186-204 | success adopts the server's flag, failure restores the previous one; the star state is untouched |
| BacklogStoryCard.SprintReadyRollback | frontend/src/components/ProductBacklogStoryCard.tsx:198-201 | a failed sprint-ready toggle is undone completely |
| BacklogStoryCard.TogglesIndependent | frontend/src/components/ProductBacklogStoryCard.tsx:134-204 | the two toggles do not touch each other's state |
| BacklogStoryCard.SprintReadyTooltip | frontend/src/components/ProductBacklogStoryCard.tsx:45-49 | 'Access Denied' without permission, otherwise the action the click would take |
| BacklogStoryCard.TooltipNamesTheClick | frontend/src/components/ProductBacklogStoryCard.tsx:45-49 | with permission the tooltip offers "Mark as sprint-ready" exactly when a click requests true, and flips after the click; "Access Denied" exactly when a click requests nothing |
| StoryCard.IsDraggable | frontend/src/components/StoryCard.tsx:33-68 | a card is draggable unless isSprintReady is false; an absent flag counts as true |
| StoryCard.Tooltip | frontend/src/components/StoryCard.tsx:72-78 | the locked tooltip appears exactly on cards that cannot be dragged |
| StoryCard.CardClasses | frontend/src/components/StoryCard.tsx:69-71 | draggable-card or locked-card and tooltipped by the drag gate, mvp-card iff tagged MVP |
| StoryCard.StartDrag | frontend/src/components/StoryCard.tsx:79-88 | a locked card cancels the drag with no payload and reports (id, false); otherwise the payload is the decimal id, the effect is move, and it reports (id, true) |
| StoryCard.LockedIffCancelled | frontend/src/components/StoryCard.tsx:68-84 | a drag is cancelled exactly on a card that shows the locked tooltip |
| StoryCard.OpensEditor | frontend/src/components/StoryCard.tsx:108 | the editor opens only with a handler and a non-zero id |
| StoryCard.EditorOpensUnlessPayloadZero | frontend/src/components/StoryCard.tsx:108 | with a handler, the editor opens exactly for the cards whose drag payload is not "0" |
| StoryCard.LinkPrompt | frontend/src/components/StoryCard.tsx:145-162 | a cancelled or empty prompt does nothing; whitespace alone alerts that the identifier is required; otherwise the trimmed input is sent |
| StoryCard.SentIdentifierIsClean | frontend/src/components/StoryCard.tsx:149-161 | the identifier sent is non-empty, has no surrounding whitespace, and is its own trim |
| StoryCard.CompleteLink | frontend/src/components/StoryCard.tsx:164-178 | on success the key and name come from the reply and the parent is notified; otherwise the link stays and the reply's text, or a fallback, is alerted |
| StoryCard.LinkLabel | frontend/src/components/StoryCard.tsx:181 | 'Linked to Release' iff a key is linked, else 'Link Release' |
| StoryCard.LinkLabelAfterReply | frontend/src/components/StoryCard.tsx:169-181 | after a successful reply the label reflects the reply's key; after a failure it is unchanged |
| KanbanColumn.TotalPoints | frontend/src/components/KanbanColumn.tsx:39 | the left-fold sum of points: 0 for an empty column, never negative when no story is |
| KanbanColumn.TotalPointsAppend | frontend/src/components/KanbanColumn.tsx:39 | the total of two lists end to end is the sum of their totals |
| KanbanColumn.MoveKeepsTotal | frontend/src/components/KanbanColumn.tsx:39 | moving a story between columns moves its points from one header to the other |
| KanbanColumn.ColumnHeader | frontend/src/components/KanbanColumn.tsx:39-66 | the count is the number of stories, the points line their total, the done style iff the title is exactly 'Done', and the empty state iff there are none |
| KanbanColumn.Drop | frontend/src/components/KanbanColumn.tsx:46-53 | no callback iff Number(payload) is NaN; otherwise the number and the column title verbatim |
| KanbanColumn.EmptyPayloadDropsStoryZero | frontend/src/components/KanbanColumn.tsx:48-51 | an empty payload reports story 0 as dropped |
| KanbanColumn.DropChecked | frontend/src/components/KanbanColumn.tsx:46-53 | reports a drop only for a payload holding a numeric literal, and agrees with the handler on every non-blank payload |
| KanbanColumn.CardToColumn | frontend/src/components/KanbanColumn.tsx:48-51 | a card's payload exists iff it is draggable, and dropping it reports that card's id and the column's title |
| JsNumber.Parse | frontend/src/components/KanbanColumn.tsx:49 | `Number(s)`: NaN iff the trimmed text is non-empty and not a numeric literal; 0 for blank text; the value of a plain integer within 2^53 |
| JsNumber.ParseRoundTrip | frontend/src/components/KanbanColumn.tsx:49 | the decimal rendering of a safe integer parses back to it |
| JsNumber.ParsePadded | frontend/src/components/KanbanColumn.tsx:49 | whitespace around a rendered integer is ignored |
| JsNumber.ParseTrailingGarbage | frontend/src/components/KanbanColumn.tsx:49-50 | digits followed by letters are NaN |
| JsNumber.ParseExponent | frontend/src/components/KanbanColumn.tsx:49-50 | an exponent literal is a number, not NaN |
| ReleasePlans.FilterCode | frontend/src/components/ReleasePlans.tsx:58 | upper-cases the choice and replaces its first space with '_', keeping the length |
| ReleasePlans.OptionsMatchCodes | frontend/src/components/ReleasePlans.tsx:58-59 | each dropdown option filters on the matching server code, 'In Progress' on IN_PROGRESS |
| ReleasePlans.CardLabelFiltersBack | frontend/src/components/ReleasePlans.tsx:58 | the label a card shows for an upper-case code without spaces filters back on that code |
| ReleasePlans.FilterPlans | frontend/src/components/ReleasePlans.tsx:54-73 | a plan is shown iff it passes the status filter and, for a non-blank query, the untrimmed lower-cased query occurs in its name, description or key |
| ReleasePlans.FilterIsConjunction | frontend/src/components/ReleasePlans.tsx:55-72 | the two filters are one filter by their conjunction, so the result is an order-preserving subsequence of the loaded plans |
| ReleasePlans.BlankQueryKeepsAll | frontend/src/components/ReleasePlans.tsx:62 | a whitespace-only query with 'All Statuses' keeps every plan in order |
| ReleasePlans.HandleDelete | frontend/src/components/ReleasePlans.tsx:75-94 | declining sends nothing; otherwise the DELETE is sent, success refetches, and failures alert with or without the server's text |
| ReleasePlans.DeletePathNamesPlan | frontend/src/components/ReleasePlans.tsx:79 | the DELETE path ends in the plan's id written so that the server's long path variable reads it back as that id |
| ReleasePlanCard.StatusClass | frontend/src/components/ReleasePlanCard.tsx:31-44 | the four codes get their classes; anything else gets the planned class |
| ReleasePlanCard.StatusClassesDistinct | frontend/src/components/ReleasePlanCard.tsx:31-44 | the four classes are distinct, and an unknown status looks planned |
| ReleasePlanCard.ServerStatusesStyled | src/main/java/com/asu/ser515/agiletool/service/ReleasePlanService.java:256 | each status the server sends is one of the card's codes, and two statuses share a badge class exactly when they are equal |
| ReleasePlanCard.StatusLabel | frontend/src/components/ReleasePlanCard.tsx:55-57 | replaces the first underscore with a space and keeps every other character |
| ReleasePlanCard.StatusLabelFirstOnly | frontend/src/components/ReleasePlanCard.tsx:56 | later underscores survive |
| ReleasePlanCard.CreatorLabel | frontend/src/components/ReleasePlanCard.tsx:99 | a missing or empty creator is shown as 'Unknown' |
| ReleasePlanCard.CreatorShownFromResponse | frontend/src/components/ReleasePlanCard.tsx:99 | the card shows the username of the plan's stored creator from the server's response, and "Unknown" for a plan without one |
| ReleasePlanCard.DeletedCreatorShowsUnknown | frontend/src/components/ReleasePlanCard.tsx:99 | once the creating user is deleted, the plan's card shows "Unknown" |
| ReleasePlanCard.OptionalBlock | frontend/src/components/ReleasePlanCard.tsx:71-79 | the description and goals blocks render only for non-empty text |
| ReleasePlanCard.OptionalBlockAfterDialog | frontend/src/components/ReleasePlanCard.tsx:71-79 | a text the dialog stores (absent turned into empty) shows a block exactly when the original text did, and the same block |
| ReleasePlanModal.TruthyNumber | frontend/src/components/CreateReleasePlanModal.tsx:45 | a number counts as given iff it is present and non-zero |
| ReleasePlanModal.Open | frontend/src/components/CreateReleasePlanModal.tsx:45-68 | without a plan every field is blank and the status PLANNED; with one its fields are copied, missing ones becoming '' or PLANNED, and the project id comes from the plan, else the prop |
| ReleasePlanModal.PutIfChanged | frontend/src/components/CreateReleasePlanModal.tsx:92-109 | adds the field exactly when its value differs, touching no other key |
| ReleasePlanModal.DiffPayloadFields | frontend/src/components/CreateReleasePlanModal.tsx:91-109 | holds exactly the differing fields, missing originals compared as '' or PLANNED, each with the form's value |
| ReleasePlanModal.DiffPayload | frontend/src/components/CreateReleasePlanModal.tsx:91-109 | the edit payload: the fields whose form value differs from the original plan |
| ReleasePlanModal.JsonNamesDistinct | frontend/src/components/CreateReleasePlanModal.tsx:91-109 | the six payload fields have six different JSON keys |
| ReleasePlanModal.UntouchedEditIsEmpty | frontend/src/components/CreateReleasePlanModal.tsx:47-109 | opening a plan and saving it untouched sends an empty edit |
| ReleasePlanModal.DiffRestoresForm | frontend/src/components/CreateReleasePlanModal.tsx:91-109 | laying the edit over the original's values gives back every field of the form |
| ReleasePlanModal.FullPayload | frontend/src/components/CreateReleasePlanModal.tsx:110-119 | all six fields, and the project id from the prop, else from the dialog |
| ReleasePlanModal.Submit | frontend/src/components/CreateReleasePlanModal.tsx:72-120 | a parsed target before the parsed start shows the error and sends nothing, and exactly then; edit sends PATCH to /api/release-plans/{id} with the diff, create sends POST with the full payload |
| ReleasePlanModal.DateOrderError | frontend/src/components/CreateReleasePlanModal.tsx:77 | the date check fires only when both dates are given, both parse, and the target is before the start |
| ReleasePlanModal.RequiredFilled | frontend/src/components/CreateReleasePlanModal.tsx:211-340 | the name, start date and target date are filled, and a project is known or chosen when creating |
| ReleasePlanModal.PressSubmit | frontend/src/components/CreateReleasePlanModal.tsx:211-340 | the browser submits the form iff every required input is filled, and then `handleSubmit` runs; a sent request always has a name and both dates |
| ReleasePlanModal.MissingRequiredNotSent | frontend/src/components/CreateReleasePlanModal.tsx:211-340 | a missing name or date never reaches `handleSubmit`, so nothing is sent |
| ReleasePlanModal.DateOrderDecides | frontend/src/components/CreateReleasePlanModal.tsx:72-81 | once the browser lets the form through, the date order alone decides between the error and the request |
| ReleasePlanModal.DateCheckLenient | frontend/src/components/CreateReleasePlanModal.tsx:77 | with every required input filled, equal dates never stop a submit |
| ReleasePlanModal.FinishSubmit | frontend/src/components/CreateReleasePlanModal.tsx:129-139 | success closes the dialog; a refusal shows the text or the update/create fallback; a thrown error shows its message |
| ReleasePlanModal.FinishSubmitModeOnlyNamesFallback | frontend/src/components/CreateReleasePlanModal.tsx:129-139 | creating and editing differ in their outcome exactly for an empty refusal, whose fallback message names the mode |
| RoleEditor.ToggleRole | frontend/src/components/AccountManagement.tsx:125-129 | a present role is removed, every occurrence; an absent one is appended |
| RoleEditor.ToggleTwiceRestores | frontend/src/components/AccountManagement.tsx:125-129 | toggling an absent role twice restores the list exactly |
| RoleEditor.ToggleTwiceMovesToEnd | frontend/src/components/ProjectMembers.tsx:61-65 | toggling a once-selected role twice moves it to the end, keeping the same roles |
| RoleEditor.ToggleKeepsOthers | frontend/src/components/ProjectMembers.tsx:61-65 | toggling one role leaves every other role's count alone |
| RoleEditor.SelectionError | frontend/src/components/AccountManagement.tsx:132-135 | an empty selection is refused with 'At least one role must be selected' |
| RoleEditor.FindOption | frontend/src/components/AccountManagement.tsx:338 | `find`: the first option with that code, or none when no option has it |
| RoleEditor.RoleLabel | frontend/src/components/AccountManagement.tsx:338 | the option's label, else the raw code |
| AccountManagement.LoadsAllUsers | frontend/src/components/AccountManagement.tsx:52-55 | the all-users list is fetched iff the user's roles include SYSTEM_ADMIN |
| AccountManagement.LoadsAllUsersIsAdminCheck | frontend/src/components/AccountManagement.tsx:53 | that test is the client permission test for SYSTEM_ADMIN alone |
| AccountManagement.EditRoles | frontend/src/components/AccountManagement.tsx:115-118 | editing copies the user's roles and leaves the messages as they were |
| AccountManagement.CancelEdit | frontend/src/components/AccountManagement.tsx:120-123 | cancelling clears the editing id and the selection and leaves the messages |
| AccountManagement.EditThenCancel | frontend/src/components/AccountManagement.tsx:115-123 | editing and then cancelling leaves no trace of the edit |
| AccountManagement.SaveRoles | frontend/src/components/AccountManagement.tsx:131-147 | an empty selection is blocked with the message; otherwise both messages clear and the selection is sent to /api/users/{id}/roles |
| AccountManagement.FinishSave | frontend/src/components/AccountManagement.tsx:149-165 | success closes the editor, clears the selection and refetches; a refusal shows its text or 'Failed to update roles'; a thrown error shows the retry message |
| AccountManagement.SaveThenFinish | frontend/src/components/AccountManagement.tsx:131-165 | a save and its reply: the list is fetched again exactly on success, which closes the editor with no error; after a failure the editor stays on the same user and saving again sends the same roles |
| AccountManagement.LabelFallback | frontend/src/components/AccountManagement.tsx:338 | a known code shows its label and an unknown code is shown raw |
| ProjectMembers.OptionsAreProjectRoles | frontend/src/components/ProjectMembers.tsx:23-27 | every choice is a role other than SYSTEM_ADMIN, so SYSTEM_ADMIN is displayed as its raw code |
| ProjectMembers.EditRoles | frontend/src/components/ProjectMembers.tsx:54-59 | editing a member opens the editor on that member with the member's project roles selected and both messages cleared |
| ProjectMembers.EditorsAgreeOnEdit | frontend/src/components/ProjectMembers.tsx:54-59 | both role editors open an edit on the same user with the same selection; only this one clears the messages, the account page keeps them |
| ProjectMembers.EditThenSave | frontend/src/components/ProjectMembers.tsx:54-85 | editing a member and saving sends the member's roles unchanged when there are any, and otherwise is blocked with the no-role error |
| ProjectMembers.CancelEdit | frontend/src/components/ProjectMembers.tsx:131-135 | cancelling clears the editing id, the selection and the error, and keeps the success message |
| ProjectMembers.EditThenCancel | frontend/src/components/ProjectMembers.tsx:54-135 | editing and then cancelling clears everything the edit set |
| ProjectMembers.SaveRoles | frontend/src/components/ProjectMembers.tsx:67-85 | an empty selection is blocked with the message; otherwise the user id and selection are sent to /api/projects/{pid}/members/{uid}/roles |
| ProjectMembers.FinishSave | frontend/src/components/ProjectMembers.tsx:87-99 | success stops editing, keeps the selection and refetches; failures show the text or 'Failed to update roles' |
| ProjectMembers.SaveThenFinish | frontend/src/components/ProjectMembers.tsx:67-99 | a save and its reply: members are fetched again exactly on success, which stops editing with no error and keeps the selection; after a failure saving again sends the same request |
| ProjectMembers.RemoveMember | frontend/src/components/ProjectMembers.tsx:102-129 | declining sends nothing; otherwise the DELETE is sent, success refetches with its message, a refusal shows its text or "Failed to remove member" when empty, and an exception shows "Failed to remove member" |
| ProjectMembers.RemoveForgetsOldMessages | frontend/src/components/ProjectMembers.tsx:102-129 | the outcome of a confirmed removal does not depend on the messages shown before |
| Text.ParseLongRoundTrip | src/main/java/com/asu/ser515/agiletool/service/ReleasePlanService.java:176 | every long value renders to a string that `Long.parseLong` reads back |
| Text.TrimIdempotent | frontend/src/components/StoryCard.tsx:149 | trimming twice is trimming once |

## Findings

| source | as written | input that shows it | evidently intended | confidence | as-written member | corrected member |
|---|---|---|---|---|---|---|
| frontend/src/components/KanbanColumn.tsx:48-52 | `Number(data)` is checked only for NaN, and `Number("")` is 0 | a drop whose 'text/plain' payload is empty, such as a drag started outside a story card, calls `onStoryDrop(0, title)` | only a payload holding a story id reports a drop | low, not executed | KanbanColumn.EmptyPayloadDropsStoryZero | KanbanColumn.DropChecked |
| frontend/src/components/ProductBacklogStoryCard.tsx:124-128 | the card's checkbox only sets the card's own `isChecked`; the card takes no `checked` or `onToggleCheck` prop, so the ones the backlog passes (`ProductBacklog.tsx:246-249`) are ignored | any sequence of clicks on the card checkboxes leaves the backlog's selection empty, so "Export Sprint-Ready Stories" stays disabled | checking a card selects its story in the backlog, and a checked sprint-ready story can be exported | high, not executed | ProductBacklog.CheckboxNeverSelects | ProductBacklog.CheckedReadyStoryExports |

`ProductBacklog.CheckboxAsWritten` models the card's checkbox as written and `ProductBacklog.Checkbox` the checkbox wired to the backlog's toggle. `KanbanColumn.Drop` models the handler as written. `KanbanColumn.CardToColumn` proves the card-to-column round trip through the corrected handler.

## Left out

- Network, persistence and the browser: `fetch`, `RestTemplate`, JPA repositories, transactions, cookies, `alert`, `confirm`, `prompt` and `window.location`. Replies are datatypes and dialog answers are booleans.
- Password hashing: BCrypt is the `encode`/`matches` parameter pair.
- `User.isSystemAdmin` and `projectService.addUserToProject` are not part of this model. The first is a parameter. Registration returns the join code instead of calling the second.
- Controllers, `DataInitializer`, `SecurityConfig`, `SQLiteConfig` and the form-only components (Login, CreateProjectModal, JoinProjectModal, CreateUserStoryModal, ProjectSidebar, ProjectList, Dashboard, MainScreen, App). These are wiring, not logic.
- ProjectService.CreateProject: the final project key assigned after saving uses identifiers the file does not define, so the stored key is a parameter. `GenerateProjectKey` is modelled on its own.
- Date parsing and locale formatting. Server dates are (year, month, day) triples. The dialog's `new Date(...)` is a parameter returning a date or nothing for an invalid string.
- Case mapping is ASCII-only. `toUpperCase`/`toLowerCase` of other letters are not modelled.
- JsNumber.Parse: the numeric value is computed only for plain decimal integers within 2^53. Other literals (fractions, exponents, hex, Infinity) are recognised as not NaN, but their value is left unmodelled.
- StoryCard.IsDraggable: treats an absent flag as the default `true`. An explicit `null`, which `Boolean(null)` makes false, is not distinguished from a missing one.
- JavaScript numbers are unbounded integers. NaN or fractional story points and floating-point sums in the column total are not modelled.
- Integer widths: ids are unbounded naturals. Only the `int` counter of the key-collision loop is bounded at `Integer.MAX_VALUE`, where the loop fails.
- Async interleaving, loading flags, timeouts that clear a success message, and the `useEffect` that re-syncs a card's linked plan from its props. In-flight guards are boolean flags.
- BacklogStoryCard: the `useEffect` that re-syncs the card's starred, sprint-ready and estimate state from its props (`frontend/src/components/ProductBacklogStoryCard.tsx:51-55`). The card state is an input of each handler, so the model has no effect hook; a caller that re-syncs passes the props' values as that state.
- BacklogStoryCard: the `onUpdate` callback after a successful estimate, star or sprint-ready request (`frontend/src/components/ProductBacklogStoryCard.tsx:106-110`, `:152-157`, `:192-197`). The card's handlers return the server's reply; what the backlog does with it is `ProductBacklog.OnUpdate`.
- Profile editing on the account page, the member list fetch, and tasks and sprints, which no modelled operation reads.
- ReleasePlanService.ResolvePlan: the identifier is read as a long with ASCII digits only. `Long.parseLong` also accepts other Unicode decimal digits, such as Arabic-Indic ones, so an identifier written with those is looked up by id in the source but by key in the model.
- MethodSecurity.ProjectRoles: `findRolesByProjectIdAndUserId` and `existsByProjectIdAndUserId` are not declared in `ProjectMemberRepository.java:13-18`. The model reads them as their names say: the roles of the user's membership rows in the project, and whether such a row exists.
- UserService.Register: an `id` in the request body is ignored, and a new id is always allocated. In the source, `save` with a client-chosen id would merge into that row. An explicit `"active": null` is not modelled; only an absent flag (true) or a given value.
