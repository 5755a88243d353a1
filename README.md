# Progression and reputation rules of the classroom RPG

This project models the rules engine of a Django classroom game, in Dafny. Players earn EXP for dungeons (class sessions), sidequests (assignments) and boss battles (exams). EXP raises their level. Honor points set a tier that gates what they may join and scales every EXP grant. Punishments take EXP and honor away and leave timed status effects that scale later grants.

The model covers:

- **The EXP ledger** (`ExpLedger`, core/services.py `add_exp`, `check_level_up`, `calculate_bonus`, `apply_level_bonus`).
  - Expired status effects are switched off lazily.
  - The grant is scaled by the product of the active effect multipliers and the honor tier multiplier, then truncated toward zero.
  - Both EXP counters move by the scaled amount.
  - The level follows the highest row of the level table that the total reaches, and only upwards.
  - A level-up pays the level's honor bonus.
- **Honor tiers** (`HonorTiers`) and **boss scoring** (`BossScore`).
- **Punishments** (`Punishments`): the three rule tables, `Punishment.apply_punishment`, the plagiarism, cheating and absence services, and honor recovery.
- **The views that change progression state** (`AttendanceView`, `AdminViews`): dungeon attendance, grading a submission, creating a boss battle and resolving a punishment.
- **The player pages' computations** (`PlayerViews`): honor history, recent activities and leaderboard rank.
- **Supporting pieces**:
  - the form validators (`Forms`);
  - the `recover_honor` command (`RecoverHonor`);
  - the user save hooks (`Signals`);
  - the role-based redirect middleware (`RoleRedirect`);
  - the user model (`Accounts`).

How the state is represented:

- A user is an `Accounts.User` object whose fields the services update in place.
- Every other table lives in one `Models.Store` object as sequence fields, in creation order.
- Each method that changes state is proved equal to a function over the value of the tables and the user row (`AddExpSpec`, `PunishSpec`, `AbsenceSpec`, `AttendanceUpdateSpec`, …). The properties are lemmas about those functions.
- Multipliers are exact hundredths, so 0.95 is 95.
- Times are integers in seconds.

## Model

| member | source | states |
|---|---|---|
| Accounts.UserRow.IsAdmin | accounts/models.py:28-30 | a user is an admin when its role is "admin" or it has the staff or the superuser flag |
| Accounts.UserRow.IsPlayer | accounts/models.py:32-34 | a user is a player exactly when its role is "player", whatever its flags |
| Accounts.UserRow.AbsoluteUrl | accounts/models.py:28-43 | the admin dashboard exactly for admins (role, staff or superuser), the player dashboard for non-admin players, the login page otherwise |
| Accounts.User.constructor | accounts/models.py:15-23 | a new user is an unsaved player at level 1 with 0 EXP and 100 honor |
| Accounts.StaffPlayerIsBoth | accounts/models.py:28-34 | a staff user with role "player" is both admin and player and lands on the admin dashboard |
| Accounts.UnknownRoleGoesToLogin | accounts/models.py:36-43 | a user of any other role without staff flags is neither admin nor player and lands on the login page |
| Models.StatusEffect.IsExpired | core/models.py:519-524 | an effect with no end date never expires; one with an end date has expired once now is strictly after it |
| Models.Sidequest.IsOverdue | core/models.py:198-201 | a quest is overdue once now is strictly after its due date |
| Models.IsLate | core/models.py:260-262 | a submission is late when it was submitted strictly after its quest's due date |
| Models.GetExpReward | core/models.py:260-268 | a submission after the due date earns the late reward, otherwise the regular one |
| Models.LateNeverPaysMore | core/models.py:264-268 | with 0 <= late reward <= reward, a late submission earns no more than an on-time one and never a negative amount |
| Models.LateIffOverdue | core/models.py:198-201 | a submission stamped now is late exactly when the quest is overdue now |
| Models.Store.constructor | core/models.py:7-22 | a store starts with its (unique-numbered) level table and every other table empty |
| Models.Store.Deactivate | core/models.py:526-529 | switches exactly one status effect off and changes nothing else |
| HonorTiers.CheckHonorPrivileges | core/services.py:509-578 | the tier is the highest one whose lower bound the honor reaches; multiplier is the tier's; sidequests from 50, dungeons from 100, bosses from 200 honor, each an if-and-only-if |
| HonorTiers.PrivilegesMonotonic | core/services.py:525-569 | more honor never lowers the tier, the multiplier or any privilege |
| HonorTiers.MultiplierMonotonic | core/services.py:528-569 | a higher tier never has a smaller multiplier |
| HonorTiers.TierExtremes | core/services.py:528-569 | every privilege and 1.2x at 800 and above; no privilege and 0.5x below 50 |
| BossScore.ApplyBonusRules | core/services.py:231-249 | the bonus is 0, 5, 10 or 15 exactly on levels up to 5, 6-10, 11-15, 16 and above |
| BossScore.CalculateFinalScore | core/services.py:252-274 | the final score is base + bonus capped at 100; the bonus and the base are echoed |
| BossScore.BonusMonotonic | core/services.py:241-249 | a higher level never earns a smaller bonus |
| BossScore.FinalScoreMonotonic | core/services.py:267-268 | the final score never decreases with the base or the level |
| BossScore.FinalScoreInRange | core/services.py:267-268 | for a base in [0, 100] the final score lies in [base, 100] |
| ExpLedger.FindLevel | core/services.py:188-194 | the row of a level number, or none when no row has it |
| ExpLedger.HighestReached | core/services.py:135 | the reached row with the highest level number, or none when no threshold is reached |
| ExpLedger.HighestReachedDetermined | core/services.py:135 | with unique level numbers, any reached row with the top level number is the one found |
| ExpLedger.HonorBonusIsAccumulated | core/services.py:196-205 | the bonus formula is the running sum of 10 points per level up to 5, 20 up to 10, 30 above |
| ExpLedger.HonorBonusIncreasing | core/services.py:200-205 | a higher level always earns a strictly larger bonus |
| ExpLedger.CalculateBonus | core/services.py:175-212 | no bonus ("No bonus available") for a level without a row, otherwise the formula bonus with a non-empty description |
| ExpLedger.ExpireEffects | core/services.py:33-44 | only the user's active expired effects are switched off; no active effect of the user remains expired |
| ExpLedger.EffectProduct | core/services.py:38-44 | the product of the multipliers of the user's active, unexpired effects, with a positive denominator |
| ExpLedger.CombinedMultiplier | core/services.py:39-48 | the effect product times the honor tier multiplier, with a positive denominator |
| ExpLedger.TruncScale | core/services.py:52 | int(amount * m): the exact product truncated toward zero, bounded from both sides |
| ExpLedger.CheckLevelUpSpec | core/services.py:117-172 | the level only rises, to a reached row above every other reached row; progress restarts past that threshold, never below 0; without level-up the user is untouched (the reported remainder and bonus are CheckLevelUpRemaining) |
| ExpLedger.CheckLevelUpRemaining | core/services.py:135-171 | on a level-up the reported remainder is the total minus the highest reached row's requirement, not clamped (only the stored progress is clamped at 0), and the bonus is that level's calculate_bonus; otherwise it is the total minus the current level's requirement, or the whole total when that level has no row, clamped at 0 |
| ExpLedger.AddExpSpec | core/services.py:8-114 | add_exp leaves levels, punishments, attendances and the user's identity and role untouched |
| ExpLedger.CheckLevelUp | core/services.py:117-172 | check_level_up on a user object is CheckLevelUpSpec |
| ExpLedger.ApplyLevelBonus | core/services.py:215-227 | apply_level_bonus on a user object adds the level's bonus to honor |
| ExpLedger.ActiveEffectsMultiplier | core/services.py:33-44 | the effect loop returns EffectProduct and leaves the table as ExpireEffects |
| ExpLedger.Credit | core/services.py:31-67 | the crediting half of add_exp on the store and the user object |
| ExpLedger.Promote | core/services.py:69-101 | the level-up half of add_exp on the store and the user object |
| ExpLedger.AddExp | core/services.py:8-114 | add_exp on the store and the user object is AddExpSpec of the old state |
| ExpLedger.SettleKeepsMultiplying | core/services.py:40-44 | switching an expired effect off never changes whether it scales EXP |
| ExpLedger.EffectProductIgnoresExpired | core/services.py:40-44 | reading the multiplier again after the lazy expiry gives the same product |
| ExpLedger.ExpireEffectsIdempotent | core/services.py:40-42 | expiring twice is expiring once |
| ExpLedger.NoEffectsNeutral | core/services.py:39-44 | with no effect of the user scaling EXP the product is exactly 1 |
| ExpLedger.EffectProductNonNegative | core/services.py:39-44 | with no negative multiplier in the table the product is never negative |
| ExpLedger.TruncScaleByOne | core/services.py:52 | a multiplier of exactly 1 leaves the amount unchanged |
| ExpLedger.TruncScaleOdd | core/services.py:52 | scaling -a gives exactly minus the scaled a |
| ExpLedger.TruncScaleShrinks | core/services.py:52 | a multiplier in [0, 1] never enlarges the amount nor flips its sign |
| ExpLedger.AddExpLedger | core/services.py:51-67 | the scaled amount moves both counters; one log entry records it, with the multiplier attached exactly when it is not 1; a level-up adds a second entry; older entries are kept |
| ExpLedger.AddExpLevelUp | core/services.py:69-86 | reaching a row above the level moves the user to the highest reached row, restarts progress past it, adds its bonus and logs the level-up last |
| ExpLedger.AddExpNoLevelUp | core/services.py:69-73 | without a reached row above the level only the two EXP counters move |
| ExpLedger.AddExpKeepsLevelCeiling | core/services.py:135-139 | add_exp never lowers the level and leaves no reached row above it |
| ExpLedger.PenaltyNeverLevelsUp | core/services.py:52-73 | a non-positive amount never levels up, keeps honor and never raises the total |
| ExpLedger.PenaltyScalesToPenalty | core/services.py:39-52 | with non-negative multipliers a non-positive amount scales to a non-positive amount |
| ExpLedger.OppositeGrantsCancel | core/services.py:52-56 | a grant and the opposite penalty under the same multiplier move the total by opposite amounts |
| ExpLedger.RespectedGrantIsExact | core/services.py:39-66 | a respected-tier user with no active effect is credited the amount exactly, with a plain log text |
| ExpLedger.LevelUpExample | core/services.py:69-86 | 95 EXP + 10 at level 1 reaches level 2 with 5 EXP of progress and +20 honor |
| ExpLedger.SkippedLevelsForfeitBonus | core/services.py:137-158 | a jump from level 1 to 3 pays only the level-3 bonus |
| ExpLedger.LevelUpHonorUncapped | core/services.py:215-225 | a level-up takes honor past 1000 |
| ExpLedger.PenaltyCanLeaveLevelUnearned | core/services.py:135-137 | a level-2 player who loses 50 of 100 EXP stays at level 2 although the highest level the new total reaches is 1 |
| Punishments.PlagiarismRule | core/services.py:278-297 | a rule exists exactly for minor, major and critical |
| Punishments.CheatingRule | core/services.py:299-318 | a rule exists exactly for mini_boss, mid_boss and last_boss |
| Punishments.RulesEscalate | core/services.py:278-318 | harsher severities and bigger bosses cost more EXP, more honor and longer effects |
| Punishments.EffectMultiplierFor | core/models.py:437-443 | the four known effects scale EXP below 1; any other name gives exactly 1 |
| Punishments.RuleEffectsReduceExp | core/models.py:435-453 | every effect a rule imposes strictly reduces EXP gains |
| Punishments.PunishmentEffectLapses | core/models.py:445-453 | a timed effect scales EXP until exactly its duration has passed; an untimed one never lapses |
| Punishments.ApplyPunishmentSpec | core/models.py:420-453 | no positive penalty leaves the user and log as they were; an effect, when named, is appended, and only then |
| Punishments.PenalizeSpec | core/models.py:425-432 | a non-positive penalty changes nothing |
| Punishments.Penalize | core/models.py:425-432 | the EXP part of apply_punishment on the store and the user object |
| Punishments.PunishSpec | core/services.py:353-375 | the punishment is appended at the returned index; honor stays non-negative after a loss |
| Punishments.ApplyPunishment | core/models.py:420-453 | apply_punishment on the store and the user object is ApplyPunishmentSpec |
| Punishments.Punish | core/services.py:353-375 | record, apply and deduct honor on the store and the user object |
| Punishments.PunishKeepsLevelAndDeductsHonor | core/services.py:367-373 | a punishment keeps the level, never raises the total, and takes exactly the rule's honor loss floored at 0 |
| Punishments.PlagiarismSpec | core/services.py:335-375 | an unknown severity is an error that changes nothing; otherwise the plagiarism record is appended and honor stays non-negative |
| Punishments.CheatingSpec | core/services.py:378-417 | an unknown boss type is an error that changes nothing; otherwise the cheating record is appended and honor stays non-negative |
| Punishments.ApplyPlagiarismPunishment | core/services.py:335-375 | the plagiarism service on the store and the user object |
| Punishments.ApplyCheatingPunishment | core/services.py:378-417 | the cheating service on the store and the user object |
| Punishments.BossTitleOf | core/services.py:401 | a two-word boss type becomes its title-cased battle name |
| Punishments.BossTitles | core/services.py:401 | the battle names are "Mini Boss", "Mid Boss" and "Last Boss" |
| Punishments.CheatingRecordOf | core/services.py:398-401 | cheating at the last boss is recorded as major, at the mini and mid boss as minor, each described as "Cheating detected in <Mini Boss, Mid Boss or Last Boss> battle" |
| Punishments.NewestFirst | core/services.py:434-436 | only the user's attendance rows (completeness and order are NewestFirstOrder) |
| Punishments.NewestFirstOrder | core/services.py:434-436 | the list holds every attendance row of the user and nothing else, at strictly decreasing positions of the table (newest first) |
| Punishments.Recent | core/services.py:434-436 | the first k of them |
| Punishments.LeadingAbsences | core/services.py:439-444 | the length of the run of absences at the front |
| Punishments.ConsecutiveAbsences | core/services.py:439-444 | the early-exit loop counts the leading absences of the three newest rows |
| Punishments.AbsenceTrigger | core/services.py:434-447 | the punishment fires exactly when the three newest rows exist and are all absences |
| Punishments.LatestUnresolved | core/services.py:452-456 | the newest open absence punishment of the user, or none when there is none |
| Punishments.AbsenceSpec | core/services.py:420-484 | nothing changes when no punishment is returned; a returned punishment is an open absence punishment of the user (when it fires and what it returns are AbsenceCases) |
| Punishments.AbsenceCases | core/services.py:434-484 | a punishment is returned exactly when the three newest rows are absences; then an open absence punishment is returned unchanged with nothing else changed, and otherwise a new absence record is appended and its index returned |
| Punishments.CheckAndApplyAbsencePunishment | core/services.py:420-484 | the absence service on the store and the user object is AbsenceSpec |
| Punishments.AbsenceIdempotent | core/services.py:451-459 | a second check, at any later time, returns the same punishment and changes nothing |
| Punishments.AbsenceCountIsThreshold | core/services.py:434-470 | a new absence punishment always records a count of 3 |
| Punishments.RecoverHonorSpec | core/services.py:487-506 | recovery happens exactly below 1000 honor and touches only honor, which becomes min(1000, honor + amount); for a non-negative amount it never falls and never passes 1000 |
| Punishments.RecoverHonorPoints | core/services.py:487-506 | recover_honor_points on a user object is RecoverHonorSpec |
| Punishments.RecoverTimesCaps | core/services.py:498-503 | n one-point recoveries add n points up to the cap; above the cap nothing moves |
| RecoverHonor.Visit | core/management/commands/recover_honor.py:38-46 | a user counts exactly when it is a player below both ceilings; others are untouched |
| RecoverHonor.RecoverRun | core/management/commands/recover_honor.py:28-57 | the run visits every user in order and counts at most all of them |
| RecoverHonor.VisitUser | core/management/commands/recover_honor.py:38-51 | one loop body on a user object is Visit, and the gain is the honor moved |
| RecoverHonor.RecoverStep | core/management/commands/recover_honor.py:38-51 | one iteration extends the run by one user |
| RecoverHonor.RecoverAll | core/management/commands/recover_honor.py:28-57 | the command on the user objects is RecoverRun of their old rows |
| RecoverHonor.TotalIsHonorGained | core/management/commands/recover_honor.py:43-46 | the reported total is exactly the honor the users gained |
| RecoverHonor.NothingRecoveredIffNoneEligible | core/management/commands/recover_honor.py:38-45 | nothing is counted exactly when no user is an eligible player |
| RecoverHonor.TotalBounded | core/management/commands/recover_honor.py:43-46 | the total lies between 0 and amount times the count |
| RecoverHonor.CeilingAboveCapIsCap | core/management/commands/recover_honor.py:39-44 | a ceiling at or above 1000 gives the same run as 1000 |
| RecoverHonor.LowCeilingIsNotACap | core/management/commands/recover_honor.py:39-44 | a ceiling below 1000 only selects users: 499 honor with ceiling 500 ends at 509 |
| Signals.SavedRow | core/signals/handlers.py:8-14 | a new user gets a key and level 1; a stored user is written as it is |
| Signals.SetInitialLevel | core/signals/handlers.py:8-14 | the pre-save hook sets level 1 only for an unsaved user |
| Signals.AutoLevelUpOnExpChange | core/signals/handlers.py:17-29 | the post-save hook changes nothing |
| Signals.Save | core/signals/handlers.py:8-29 | a save through both hooks stores SavedRow |
| Signals.SaveIdempotent | core/signals/handlers.py:13-14 | a second save changes nothing and the key is kept |
| Signals.ManualExpEditDoesNotLevelUp | core/signals/handlers.py:17-29 | a total raised by hand is not levelled up by a save |
| Signals.NewUserStartsAtLevelOne | core/signals/handlers.py:13-14 | a first save puts the user at level 1 and keeps EXP and honor |
| RoleRedirect.DashboardsDisjoint | accounts/middleware/role_based_redirect.py:37-40 | no path is under both dashboards |
| RoleRedirect.RouteAsWritten | accounts/middleware/role_based_redirect.py:21-43 | a request is redirected exactly when it is signed in, not exempt, and either at the root with a user of either role or under the dashboard of a role the user lacks; every other request passes, including the root for a user of neither role and every other path; the root sends a known role to its dashboard, the admin dashboard sends a non-admin to the player dashboard and the player dashboard sends a non-player to the admin dashboard; each dashboard passes exactly for its role |
| RoleRedirect.Route | accounts/middleware/role_based_redirect.py:21-43 | redirects exactly the same requests as written, but every redirect goes to the user's own landing page; each dashboard passes exactly for its role |
| RoleRedirect.DashboardsNotExempt | accounts/middleware/role_based_redirect.py:12-23 | the root and the dashboards are not exempt; the login page is |
| RoleRedirect.AsWrittenLoops | accounts/middleware/role_based_redirect.py:37-40 | a user of neither role is sent from each dashboard to the other |
| RoleRedirect.NeitherRolePassesAtRoot | accounts/middleware/role_based_redirect.py:30-34 | a signed-in user of neither role is let through at the root, as written and corrected |
| RoleRedirect.RouteSettles | accounts/middleware/role_based_redirect.py:28-40 | the corrected middleware never redirects to a page it would redirect again |
| RoleRedirect.CorrectionOnlyAffectsUnknownRoles | accounts/middleware/role_based_redirect.py:30-40 | for admins and players both versions agree on every path |
| RoleRedirect.AsWrittenSettlesForKnownRoles | accounts/middleware/role_based_redirect.py:28-40 | as written, admins and players settle after one redirect |
| Forms.StripIdempotent | core/forms.py:24 | stripping twice is stripping once |
| Forms.CleanTitle | core/forms.py:23-29 | accepted exactly when the stripped title has 3 characters or more, and then stripped; blank is "Title is required." (in the program the model field's own required check answers a blank title first, with "This field is required.", so this message is the method's and never reaches a user) |
| Forms.PaddedTitleTooShort | core/forms.py:23-29 | a title of a no-break space and two letters is rejected as too short, because strip() removes Unicode whitespace as well as ASCII |
| Forms.CleanTitleIdempotent | core/forms.py:23-29 | a cleaned title is accepted again unchanged |
| Forms.CleanExpReward | core/forms.py:31-37 | accepted exactly in [0, 10000] |
| Forms.CleanLateExpReward | core/forms.py:39-46 | accepted exactly in [0, regular reward], where a missing reward counts as 0 |
| Forms.CleanDueDate | core/forms.py:48-54 | refused exactly when a date is given and lies in the past |
| Forms.ValidRewardsPayLateNoMore | core/forms.py:31-46 | accepted rewards make a late submission earn between 0 and the on-time reward, at most 10000 |
| Forms.SplitExt | core/forms.py:83 | the extension is empty or a dot-led suffix of the name without further dots or slashes |
| Forms.CleanSubmittedFile | core/forms.py:73-95 | accepted exactly for a named file of at most 10 MB whose lower-cased extension is allowed and whose name holds no dangerous pattern |
| Forms.AcceptedNameIsPlain | core/forms.py:89-93 | an accepted name has no slash, backslash, NUL or two dots in a row |
| Forms.UpperCaseExtensionAccepted | core/forms.py:83-84 | "report.PDF" is accepted |
| Forms.DotOnlyNameRejected | core/forms.py:83-84 | ".pdf" has no extension and is refused |
| Forms.CleanGrade | core/forms.py:108-113 | a missing grade or one in [0, 100] is accepted unchanged, exactly |
| Forms.CleanFeedback | core/forms.py:115-119 | accepted exactly when the stripped text has at most 1000 characters, and then stripped |
| Forms.CleanGradeForm | core/forms.py:98-119 | valid exactly when both fields are, with the grade as given and the feedback stripped; otherwise the errors are exactly the failing fields' own messages, one per failing field |
| Forms.CleanEvidence | core/forms.py:182-213 | blank gives {}; otherwise accepted exactly for short text that decodes to an object of at most 50 simple values |
| Forms.SaveEvidence | core/forms.py:215-222 | the cleaned evidence is stored, or {} when there is none |
| Forms.SavedEvidenceIsFlat | core/forms.py:182-219 | stored form evidence is flat and has at most 50 keys |
| AdminViews.Submission.constructor | core/models.py:231-244 | a new submission has no grade, no feedback and 0 EXP earned |
| AdminViews.SaveGrade | core/views.py:448-464 | the grade and feedback are saved; the reward is granted through the ledger exactly when a grade is set and the compared grade is missing |
| AdminViews.GradeView | core/views.py:437-476 | denied exactly for non-admins, not found exactly for a missing submission, rejected exactly for an invalid form; only a save changes anything |
| AdminViews.GradeSubmissionSpec | core/views.py:437-476 | the reward is granted exactly on a valid first grade by an admin, and equals the submission's (late or regular) reward |
| AdminViews.GradeSubmissionAsWritten | core/views.py:445-464 | the view as written saves exactly on a valid form by an admin |
| AdminViews.GradeAsWrittenNeverGrants | core/views.py:446-453 | as written, no input grants EXP or changes the owner |
| AdminViews.FirstGradeGrants | core/views.py:452-464 | a valid first grade credits the reward through the ledger |
| AdminViews.SaveGradeCredits | core/views.py:453-464 | a grant from saving a grade goes through add_exp |
| AdminViews.FirstGradeDiscrepancy | core/views.py:446-453 | the same first grade grants under the corrected view and grants nothing as written |
| AdminViews.RegradeGrantsNothing | core/views.py:452-453 | re-grading a graded submission changes only the grade and feedback |
| AdminViews.GradeGrantsOnce | core/views.py:452-453 | after the grant, grading again moves no EXP |
| AdminViews.ClearedGradeGrantsAgain | core/views.py:452-453 | clearing the grade makes the next grade grant again |
| AdminViews.GradeSubmission | core/views.py:437-476 | the view on the store, the owner and the submission objects is GradeSubmissionSpec |
| AdminViews.BossFormErrors | core/forms.py:122-139 | no field error exactly when the boss form is valid |
| AdminViews.CreateBoss | core/views.py:596-630 | denied exactly for non-admins; rejected exactly for invalid forms; created exactly for eligible players, with the level bonus and a final score in [base, 100]; a refused player has honor below 200 |
| AdminViews.BossEligibilityMonotonic | core/views.py:604-612 | more honor never turns an accepted boss into a refused one, nor changes the record |
| AdminViews.BossScoreIsCappedSum | core/views.py:614-622 | the saved final score is min(100, base + bonus) |
| AdminViews.SweepEffects | core/views.py:846-851 | exactly the user's active effects with the punishment's prefix are switched off; nothing else changes |
| AdminViews.ResolveSpec | core/views.py:831-856 | denied exactly for non-admins, not found exactly for a missing punishment, resolved exactly on a post; a post marks it resolved now and sweeps its effects |
| AdminViews.ResolvePunishment | core/views.py:831-856 | the view on the store is ResolveSpec |
| AdminViews.ResolveEndsEffects | core/views.py:846-851 | the punishment's effects, and those of punishments whose description extends it, scale no more EXP |
| AdminViews.ResolveSparesOthers | core/views.py:846-851 | effects of other users or without the prefix are untouched |
| AdminViews.ResolveTwice | core/views.py:840-851 | resolving again changes only the resolution time |
| AdminViews.ResolveReopensAbsenceCheck | core/services.py:451-459 | resolving the open absence punishment lets the next check record a new one |
| AttendanceView.FindAttendance | core/views.py:204-208 | the index of the user's row for the dungeon, or none when there is none |
| AttendanceView.GetOrCreate | core/views.py:204-208 | an existing row is reused; otherwise an absent row with 0 participation EXP is appended |
| AttendanceView.EnsureRows | core/views.py:201-209 | the table only grows, by absent default rows of the dungeon; each player gets a row of its own |
| AttendanceView.EnsureRowsStep | core/views.py:202-209 | one more player continues from the rows of the players before it |
| AttendanceView.EnsureRowsNoop | core/views.py:203-208 | when every player has a row nothing is created |
| AttendanceView.EnsureRowsIdempotent | core/views.py:201-209 | opening the page twice adds no rows the second time |
| AttendanceView.MoveRowSpec | core/views.py:270-303 | only row i changes; it ends attended exactly when marked and already attended or allowed to join; EXP moves exactly when the state flips |
| AttendanceView.AttendanceStepSpec | core/views.py:270-313 | the same for the move followed by the absence check |
| AttendanceView.MoveRow | core/views.py:270-303 | the move on the store and the user object is MoveRowSpec |
| AttendanceView.AttendanceStep | core/views.py:270-313 | one loop row on the store and the user object is AttendanceStepSpec |
| AttendanceView.JoinGrantsReward | core/views.py:274-292 | a join with enough honor sets the reward on the row and credits it, scaled, under participation |
| AttendanceView.RefusedJoinChangesNothing | core/views.py:274-284 | a join refused for low honor changes nothing and skips the absence check |
| AttendanceView.LeaveRevokesReward | core/views.py:293-313 | leaving clears the row, takes the scaled reward back, then runs the absence check |
| AttendanceView.UnchangedRowMovesNoExp | core/views.py:302-313 | an unchanged row moves no EXP; an absent one only goes through the absence check |
| AttendanceView.AdvanceBatch | core/views.py:219-262 | row k changes only player k and its own row, which ends attended only if marked (the converse and the exact count are AdvanceBatchSettles) |
| AttendanceView.AdvanceBatchSettles | core/views.py:219-313 | row k ends attended exactly when marked and the player was attending or may join; the count grows by one exactly when the row's attended flag flipped, that is when EXP moved |
| AttendanceView.ProcessPlayers | core/views.py:219-262 | the loop keeps every player's key and the table's size; at most k rows are counted (the exact count is ProcessPlayersCountsFlips) |
| AttendanceView.ProcessRow | core/views.py:219-262 | the loop up to and including row k counts at most k + 1 rows |
| AttendanceView.ProcessPlayersUnfold | core/views.py:219-262 | the loop over k rows is the loop over k - 1 rows and then row k - 1 |
| AttendanceView.AdvanceKeepsMarks | core/views.py:221-228 | one more row keeps every processed row in line with its mark |
| AttendanceView.ProcessedRowsFollowMarks | core/views.py:215-228 | no processed row ends attended unless ticked or bulk "all" |
| AttendanceView.BulkNoneLeavesAllAbsent | core/views.py:215-222 | after bulk "none" no player's row is attended |
| AttendanceView.ProcessPlayersKeepsOwners | core/views.py:219-251 | no row changes its user or dungeon |
| AttendanceView.FlipCountFrame | core/views.py:219-251 | the count of flipped rows depends only on the rows at the processed positions |
| AttendanceView.LoopStateStep | core/views.py:219-313 | with distinct rows, one settled row carries the loop state (untouched rest, attended-iff for processed rows, count of flips) from k - 1 rows to k |
| AttendanceView.AdvanceKeepsLoopState | core/views.py:219-313 | with distinct rows, row k - 1 of the loop carries the loop state from k - 1 rows to k |
| AttendanceView.ProcessPlayersState | core/views.py:219-313 | with distinct rows, the first k rows of the loop leave the unreached rows and players untouched, each processed row attended exactly when marked and its player was attending or may join, and the count equal to the number of flipped rows |
| AttendanceView.ProcessedRowsAttend | core/views.py:219-313 | with distinct rows, a processed row ends attended if and only if it is marked and its player was already attending or may join |
| AttendanceView.ProcessPlayersCountsFlips | core/views.py:219-251 | with distinct rows, the count is exactly the number of processed rows whose attended flag flipped |
| AttendanceView.AttendanceUpdateSpec | core/views.py:191-328 | non-admins and a missing dungeon change nothing; a page view only adds rows; a bulk count is at most the number of players (the rows and the exact count after a submission are AttendanceUpdateSettles) |
| AttendanceView.EveryPlayerHasARow | core/views.py:201-209 | after an admin opens or submits the page every player has a row for the dungeon |
| AttendanceView.EnsureRowsLoop | core/views.py:202-209 | the get_or_create loop computes EnsureRows |
| AttendanceView.EnsureAttendances | core/views.py:198-209 | the loop on the store writes EnsureRows, changes nothing else and leaves the players untouched |
| AttendanceView.AdvanceStep | core/views.py:219-262 | one loop row on the objects advances the loop's state by one row |
| AttendanceView.ProcessRows | core/views.py:219-262 | the loop on the objects reaches the state of ProcessPlayers over all rows |
| AttendanceView.SubmitAttendance | core/views.py:211-315 | a submitted form on the store and the player objects is SubmitSpec |
| AttendanceView.OpenAttendance | core/views.py:198-315 | for an admin and an existing dungeon, ensuring the rows and then showing or submitting is AttendanceUpdateSpec |
| AttendanceView.UpdateAttendance | core/views.py:191-328 | the view on the store and the player objects is AttendanceUpdateSpec |
| AttendanceView.AttendanceUpdateSettles | core/views.py:203-313 | for distinct players, each player's row ends attended if and only if it is marked and the player was attending or may join, and a bulk count is exactly the number of those rows whose attended flag flipped |
| PlayerViews.EvidenceBossType | gamification/views.py:423 | the stored boss type, or "mini_boss" when evidence or key is missing |
| PlayerViews.HonorChange | gamification/views.py:417-427 | minus the rule's honor loss, 0 without a rule, never positive; fails exactly for a list or object boss type |
| PlayerViews.InferHonor | gamification/views.py:416-428 | one entry per punishment in order, or the first failing punishment's error |
| PlayerViews.InferHonorFailsEarly | gamification/views.py:417-428 | once a prefix fails the whole list fails with the same error |
| PlayerViews.InferHonorChanges | gamification/views.py:416-428 | the loop computes InferHonor |
| PlayerViews.PunishmentsNewestFirst | gamification/views.py:415 | only the user's punishments (completeness and order are PunishmentsNewestFirstOrder) |
| PlayerViews.PunishmentsNewestFirstOrder | gamification/views.py:415 | the list holds every punishment of the user and nothing else, at strictly decreasing positions of the table (newest first) |
| PlayerViews.HonorHistory | gamification/views.py:408-436 | admins are redirected exactly; players see at most 100 entries of their own with the inferred change (which entries, and when the page fails, are HonorHistoryEntries) |
| PlayerViews.HonorHistoryEntries | gamification/views.py:415-433 | the page lists the first min(100, n) of the player's n punishments, newest first, none skipped or reordered; it fails exactly for a player one of whose punishments has no inferable change |
| PlayerViews.ServiceRecordsInferTheirLoss | gamification/views.py:417-427 | the records the services create infer exactly their rule's honor loss |
| PlayerViews.InferredPlagiarismMatchesDeduction | gamification/views.py:419-421 | above the floor, the change shown is what the plagiarism service took |
| PlayerViews.FlatEvidenceNeverFails | gamification/views.py:422-425 | punishments with flat evidence never make the page fail |
| PlayerViews.ListBossTypeFails | gamification/views.py:423-424 | a list boss type makes the page fail |
| PlayerViews.ClampLimit | gamification/views.py:445-449 | 10 when absent or unreadable, else the value clamped to [1, 100] |
| PlayerViews.ClampLimitStable | gamification/views.py:447 | clamping is idempotent and monotonic |
| PlayerViews.LogsNewestFirst | gamification/views.py:450 | only the user's log entries (completeness and order are LogsNewestFirstOrder) |
| PlayerViews.LogsNewestFirstOrder | gamification/views.py:450 | the list holds every log entry of the user and nothing else, at strictly decreasing positions of the table (newest first) |
| PlayerViews.RecentActivities | gamification/views.py:439-457 | admins get nothing; players get the newest min(limit, count) entries of their own |
| PlayerViews.UserRank | gamification/views.py:262-267 | the 1-based place of the first row with the user's key, or none exactly when absent |

## Left out

- Notifications, the leaderboard broadcast, logging and flash messages are not modelled. They cannot change progression state; the notification call's failure is swallowed in the source.
- Rendering, redirects and templates are reduced to outcome values. The boss record BossCreateView saves is returned rather than stored, because no modelled operation reads boss records.
- Transactions and row locking are left out; every operation is one atomic step.
- `check_level_up`'s `refresh_from_db` is left out: the user object is taken to hold the stored row.
- Float arithmetic is left out. Multipliers are exact hundredths. The `{:.2f}` multiplier text in the log is kept as a structured value and not rendered.
- ExpLedger.TruncScale: uses the exact product of the amount and the multipliers. Python multiplies floats, which can land just below an integer, and then `int()` gives one less. For example, 30 EXP under weakness (0.75) in the exalted tier (1.2) is 27 here and 26 in Python.
- The source catches the exceptions the absence check raises inside the attendance loop. In the model the absence check raises none, so that branch is not modelled.
- Parsing is taken as already done. The `limit` parameter, the JSON evidence and the form fields arrive as values, and the decoder's error text is an input.
- The leaderboard's sort and its top-ten slice are not modelled. UserRank takes the players already ranked; the cache around the ranking is left out.
- honor_history's list of level-up log entries is not modelled: it is a filtered query that no rule reads.
- URL resolution is not modelled; core/urls.py and gamification/urls.py are not part of this model. The dashboards are taken to live at /admin-dashboard/ and /player-dashboard/, and the login page at /accounts/login/.
- An attendance id is the row's index in the attendance table.
- Report generation, the admin site, the websocket consumers and sample-user creation are not part of this model.
- core/tests.py disagrees with the code in places; the model follows the code:
  - line 133 expects a level-up from `current_exp` alone, but the code reads `total_exp`;
  - lines 158 and 166 expect `bonus_applied` to be a flag and a `bonus_points` key, but the code returns the bonus as a number;
  - line 243 expects 20 honor lost for a mini boss, but the rule says 15.

## Findings

| source | as written | input that shows it | evidently intended | confidence | as-written member | corrected member |
|---|---|---|---|---|---|---|
| core/views.py:446-453 | `form.is_valid()` copies the posted grade onto the submission before `old_grade` is read, so `old_grade` already equals the new grade | an admin posts grade 90 for an ungraded submission: `old_grade` is 90, so no EXP is granted | the first grade of a submission grants its reward once (the comment at line 452) | high; not executed | AdminViews.FirstGradeDiscrepancy | AdminViews.FirstGradeGrants |
| accounts/middleware/role_based_redirect.py:37-40 | a signed-in user who is neither admin nor player is sent from /admin-dashboard/ to /player-dashboard/ and back | a user with role "guest" and no staff flag opens /admin-dashboard/ | send such a user to its own landing page (the login page), which stops the loop | high; not executed | RoleRedirect.AsWrittenLoops | RoleRedirect.RouteSettles |

Two behaviours are modelled as written without being filed as findings:

- The `--max-honor` ceiling of `recover_honor` only decides who is visited; a visited player can end above it (RecoverHonor.LowCeilingIsNotACap).
- A level-up adds honor past the 1000 cap that recovery respects (ExpLedger.LevelUpHonorUncapped).
