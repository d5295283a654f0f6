# Hospital management backend: a verified model of its core rules

This project models, in Dafny, the decision rules and the small state
updates at the centre of a Django hospital backend (the `hms` repository):

- **Permissions.** Modules, permissions, per-user overrides, user groups
  and group grants; the two resolvers `UserPermission.has_permission` and
  `UserPermission.get_user_permissions`; `Permission.save` defaults; the
  permission gates (DRF permission classes, the dispatch mixin, the view
  decorators); and the endpoints that change grants and memberships and
  append to the permission log.
- **Appointments.** The appointment row and its `save`, the generated
  `APT…` ids, the 24-hour cancellation window, the lifecycle actions of
  `AppointmentViewSet` and `WaitingListViewSet`, the admin bulk actions,
  the create/update serializer's checks, the available-slot generator and
  the calendar grouped by doctor.
- **Patients and doctors.** The derived fields (`PAT…` ids, age, full name
  and address, validity by date), the doctor profile's properties, the
  "at most one primary specialty" invariant kept by the specialty
  endpoints and by the doctor serializer's `create`/`update`, the review
  average and the availability upsert.
- **Users.** The `change_password` authorisation rule, group membership
  changes and the department list.

The files follow the shape of the source. Pure properties and queries are
functions with lemmas. Tables that endpoints change in place are classes:
`PermissionStore`, `AppointmentStore`, `DoctorStore` and `AccountStore`.
Their fields are maps, sets and sequences, and the endpoints are methods
with `modifies` clauses. Loops in the source (`get_user_permissions`,
`bulk_create_permissions`, `available_slots`, the grouped calendar, the
specialty and qualification loops of the doctor serializer) are `while` or
`for` loops. Each loop is proved equal to a recursive specification
function, and the lemmas about those functions carry the properties.

Modules, one per source file plus three shared ones:

| file | module | source |
|---|---|---|
| common.dfy | Common | shared vocabulary: `Option`, Python truthiness, `join`, distinct elements |
| calendar.dfy | Calendar | dates, ages, month counts, weekdays |
| serial_ids.dfy | SerialIds | the `<prefix><serial>` id scheme shared by patients and appointments |
| permissions_models.dfy | PermissionModels | apps/permissions/models.py |
| permissions_mixins.dfy | PermissionMixins | apps/permissions/mixins.py |
| permissions_decorators.dfy | PermissionDecorators | apps/permissions/decorators.py |
| permissions_views.dfy | PermissionViews | apps/permissions/views.py |
| appointments_models.dfy | AppointmentModels | apps/appointments/models.py |
| appointments_serializers.dfy | AppointmentSerializers | apps/appointments/serializers.py |
| appointments_views.dfy | AppointmentViews | apps/appointments/views.py (lifecycle, feedback, notify, calendar) |
| appointments_slots.dfy | AppointmentSlots | apps/appointments/views.py (`available_slots`) |
| appointments_admin.dfy | AppointmentAdmin | apps/appointments/admin.py |
| patients_models.dfy | PatientModels | apps/patients/models.py |
| doctors_models.dfy | DoctorModels | apps/doctors/models.py |
| doctors_views.dfy | DoctorViews | apps/doctors/views.py |
| doctors_serializers.dfy | DoctorSerializers | apps/doctors/serializers.py |
| users_views.dfy | UserViews | apps/users/views.py |

Representation choices:

- Times of day are minutes since midnight.
- Appointment dates are day numbers as `date.toordinal()` gives them, and
  instants are seconds.
- Birth, expiry and licence dates are (year, month, day) triples, compared
  as Python compares dates.
- Money is in the smallest currency unit and the average rating is in
  hundredths.
- A request id that is absent or 0 counts as missing, as `if not x:` does
  in the source.

## Model

| member | source | states |
|---|---|---|
| PermissionModels.DenialWins | apps/permissions/models.py:164-171 | An explicit denying override of a codename makes `has_permission` false, whatever the user's groups grant |
| PermissionModels.GrantWins | apps/permissions/models.py:164-175 | With no denial, a granting override makes `has_permission` true without consulting groups |
| PermissionModels.GroupsDecideWithoutOverride | apps/permissions/models.py:164-181 | With no override row for the codename, `has_permission` holds iff some group of the user holds a grant of it |
| PermissionModels.GroupsMonotone | apps/permissions/models.py:177-181 | More group grants or memberships, with the same overrides, never take a permission away |
| PermissionModels.GroupGrantReachesMembers | apps/permissions/models.py:177-181 | A group grant gives its permission to every member who is not denied that codename |
| PermissionModels.AddOverrideCodes | apps/permissions/models.py:153-155 | The first loop of `get_user_permissions` adds exactly the codenames of the granting overrides |
| PermissionModels.AddGrantCodes | apps/permissions/models.py:157-159 | The second loop adds exactly the codenames of the group grants whose permission the user is not denied |
| PermissionModels.RowCodes | apps/permissions/models.py:141-148 | The codenames of the two queries are the direct codes and the undenied group codes |
| PermissionModels.GetUserPermissions | apps/permissions/models.py:136-161 | Returns each codename once, and exactly the direct grants plus the undenied group grants |
| PermissionModels.EffectiveImpliesHas | apps/permissions/models.py:136-181 | Every codename `get_user_permissions` lists passes `has_permission` (needs unique codenames and unique (user, permission) overrides) |
| PermissionModels.HasImpliesEffective | apps/permissions/models.py:136-181 | Every codename `has_permission` accepts is listed by `get_user_permissions` |
| PermissionModels.ResolversAgree | apps/permissions/models.py:136-181 | The two resolvers agree on every user and codename, under the two uniqueness constraints |
| PermissionModels.NoOverridesNoGroups | apps/permissions/models.py:136-181 | A user with no overrides and no groups gets an empty list and false for every codename |
| PermissionModels.WithPermissionActive | apps/permissions/models.py:46 | Toggling `is_active` sets that flag of that permission; its other columns, the other permissions and the other tables stay as they were |
| PermissionModels.ActiveFlagIgnored | apps/permissions/models.py:136-181 | Neither resolver reads `is_active`: toggling it changes no answer of either |
| PermissionModels.SaveDefaults | apps/permissions/models.py:57-62 | An empty codename becomes `module.operation` and an empty name `Can <op> <display name lowercased>`; non-empty values are kept, other fields unchanged |
| PermissionModels.SaveDefaultsIdempotent | apps/permissions/models.py:57-62 | Saving twice writes the same row as saving once |
| PermissionModels.DefaultCodenameInjective | apps/permissions/models.py:57-59 | For dot-free module names a default codename determines its module name and operation |
| PermissionModels.DefaultCodenameUnused | apps/permissions/models.py:43-51 | With default codenames and unique dot-free module names, the default codename of a missing (module, operation) pair is held by no permission |
| PermissionModels.PermissionStore.constructor | apps/permissions/models.py:9-215 | The tables start empty and satisfy every constraint |
| PermissionMixins.HasPermissionGateSpec | apps/permissions/mixins.py:15-25 | Unauthenticated requests are refused; with no required permission the gate passes; otherwise it answers `has_permission` |
| PermissionMixins.MethodOperation | apps/permissions/mixins.py:44-52 | GET, POST, PUT, PATCH and DELETE map to one of the four operations, and no other method maps to anything |
| PermissionMixins.ModuleCrudGateSpec | apps/permissions/mixins.py:35-57 | Unauthenticated is refused, no module name passes, an unmapped method is refused, and GET/POST/PUT/PATCH/DELETE ask for `<module>.read/create/update/delete` |
| PermissionMixins.ActionOperation | apps/permissions/mixins.py:119-128 | list/retrieve ask for read, create for create, update/partial_update for update, destroy for delete, and an unlisted or missing action for read |
| PermissionMixins.GetRequiredPermission | apps/permissions/mixins.py:112-129 | None exactly without a module name; otherwise the default codename of the module and one of the four operations |
| PermissionMixins.ActionGateMatchesMethodGate | apps/permissions/mixins.py:112-129 | Each standard viewset action asks for the same codename as its HTTP method |
| PermissionMixins.CheckPermissions | apps/permissions/mixins.py:131-140 | A refusal of the base classes is kept; a denial names the codename it lacks |
| PermissionMixins.CheckPermissionsDeniesIff | apps/permissions/mixins.py:131-140 | After the base classes pass, the mixin denies exactly when a codename is required and `has_permission` is false |
| PermissionMixins.FirstMissing | apps/permissions/mixins.py:82-88 | None iff every listed code holds; otherwise the position of the first code that does not |
| PermissionMixins.DispatchProceedsIff | apps/permissions/mixins.py:69-102 | `dispatch` refuses unauthenticated requests, and proceeds iff the single, every listed and (when the list is non-empty) some of the any-list codes hold |
| PermissionMixins.DispatchNamesFirstMissing | apps/permissions/mixins.py:82-88 | When the all-list fails, the message names its first missing code |
| PermissionDecorators.RequirePermissionRunsIff | apps/permissions/decorators.py:14-28 | `require_permission` runs the view iff the user is authenticated and has the codename; unauthenticated users are redirected to login |
| PermissionDecorators.RequireAnyRunsIff | apps/permissions/decorators.py:35-52 | `require_any_permission` runs the view iff some listed code holds; with no codes it refuses |
| PermissionDecorators.RequireAllRunsIff | apps/permissions/decorators.py:60-77 | `require_all_permissions` runs the view iff every listed code holds; with no codes it always runs |
| PermissionDecorators.AllAdmitsImpliesAnyAdmits | apps/permissions/decorators.py:39-67 | For a non-empty list, what `require_all_permissions` admits `require_any_permission` admits |
| PermissionDecorators.SingleCodeDecoratorsAgree | apps/permissions/decorators.py:14-77 | With one code the three decorators admit the same requests |
| PermissionDecorators.DenialNamesCodesIffApi | apps/permissions/decorators.py:18-75 | For each of the three decorators, a refusal carries the generic message iff the request is not an API request, and otherwise names the code or codes in that decorator's words (`Required:`, `Required one of:`, `Required all of:`) |
| PermissionViews.OperationsOfAdd | apps/permissions/views.py:75-83 | Inserting a permission of module m adds its operation to m's operations |
| PermissionViews.NewOperationsSpec | apps/permissions/views.py:75-89 | The operations created are exactly the requested ones the module lacked, each once |
| PermissionViews.NewOperationsEmptyWhenCovered | apps/permissions/views.py:75-89 | Once every requested operation exists, the same request creates nothing |
| PermissionViews.NewPermissions | apps/permissions/views.py:76-80 | The created rows are `get_or_create`'s defaults for each new operation, in order |
| PermissionViews.NoCollisionUnderDefaults | apps/permissions/views.py:76-80 | Under default codenames a missing (module, operation) pair has an unused default codename, so its creation cannot fail on codename uniqueness |
| PermissionViews.BulkStepFound | apps/permissions/views.py:75-83 | A loop turn whose operation exists keeps the loop's progress invariant and creates nothing |
| PermissionViews.BulkStepCreated | apps/permissions/views.py:75-83 | A loop turn that inserts a new default row keeps the invariant and records the row |
| PermissionViews.GetOrCreatePermission | apps/permissions/views.py:76-80 | `get_or_create` finds an existing (module, operation) row, or inserts the default row, or fails on a taken codename; nothing else changes |
| PermissionViews.BulkCreateOne | apps/permissions/views.py:75-83 | One loop turn: the invariant advances, or a failure leaves earlier rows untouched |
| PermissionViews.BulkCreatePermissions | apps/permissions/views.py:56-89 | Missing module id gives 400 and an unknown module 404, both changing nothing; otherwise the response lists exactly the requested operations the module lacked (default create/read/update/delete), and no existing row changes |
| PermissionViews.AddPermission | apps/permissions/views.py:142-181 | 404 for an unknown group, 400 without `permission_id`, 404 for an unknown permission; a new pair is added with one `grant_group` log entry; an existing pair returns "already exists" with no log; only grants are gained |
| PermissionViews.RemovePermission | apps/permissions/views.py:184-219 | An existing pair is deleted after one `revoke_group` log entry; an absent pair gives 404 and changes nothing; no permission is gained |
| PermissionViews.RemoveOnlyGrant | apps/permissions/views.py:208-211 | Under (group, permission) uniqueness, deleting the one row removes the group's grant and shrinks the table by one |
| PermissionViews.AddUser | apps/permissions/views.py:222-251 | 404 for an unknown group, 400 without `user_id`, 404 for an unknown user; otherwise the membership is added (idempotently) and an `add_user_to_group` entry is logged even on a no-op; nobody loses a permission |
| PermissionViews.RemoveUser | apps/permissions/views.py:254-283 | The same checks; the membership is removed and a `remove_user_from_group` entry logged on every successful call; nobody gains a permission |
| PermissionViews.OverrideDecides | apps/permissions/models.py:164-175 | A new override of a uniquely named permission decides `has_permission` for that user and codename |
| PermissionViews.CreateUserPermission | apps/permissions/views.py:311-326 | The override is stored with `granted_by` the requester and logged as `grant_user` iff granted, else `revoke_user`; a duplicate or dangling key gives 400 with no change |
| AppointmentModels.CleanTimeSlot | apps/appointments/models.py:77-79 | `clean` passes iff the start is before the end, else fails with its message |
| AppointmentModels.EndTime | apps/appointments/models.py:205-208 | The end time is start plus duration, modulo a day |
| AppointmentModels.GenerateAppointmentId | apps/appointments/models.py:234-251 | The id starts with `APT<year><month:02>` and is not in use (corrected serial rule, see Findings) |
| AppointmentModels.AppointmentIdAsWrittenRepeats | apps/appointments/models.py:234-251 | As written, the first id of January 2024 is `APT2024010001`, and after serial 9999 the id `APT20240110000` is issued again although taken |
| AppointmentModels.SaveFields | apps/appointments/models.py:204-212 | The end time is recomputed when a duration is set, the fee is copied from the type only when zero, and no other field changes |
| AppointmentModels.Save | apps/appointments/models.py:199-214 | An id is generated only for a row without one, then the end time and fee rules apply |
| AppointmentModels.SaveIdempotent | apps/appointments/models.py:199-214 | Saving twice is saving once |
| AppointmentModels.InstantParts | apps/appointments/models.py:270-275 | Combining a date and a time and reading them back gives the same date and time |
| AppointmentModels.CancelWindow | apps/appointments/models.py:278-283 | An open appointment can be cancelled iff strictly more than 86400 seconds remain |
| AppointmentModels.CanCancelEarlier | apps/appointments/models.py:278-283 | What can be cancelled now could be cancelled at any earlier instant |
| AppointmentModels.RescheduleNeedsCancel | apps/appointments/models.py:286-288 | `can_reschedule` iff `can_cancel` and status scheduled or confirmed; never for in-progress or rescheduled |
| AppointmentModels.RemainingSlotsCountsFree | apps/appointments/models.py:369-375 | When the booked and blocked counters count disjoint sets of a day's slot positions, `available_slots` is the number of positions that are neither, and the day is fully booked exactly when no position is free |
| AppointmentModels.FullyBookedIff | apps/appointments/models.py:373-375 | Fully booked iff booked and blocked cover the total; stays so with one more booking; a zero total is fully booked |
| AppointmentModels.AppointmentStore.constructor | apps/appointments/models.py:81-195 | The tables start empty and valid |
| AppointmentModels.AppointmentStore.IdList | apps/appointments/models.py:240-242 | Every appointment id in use is in the list the id generator reads |
| AppointmentModels.AppointmentStore.Put | apps/appointments/models.py:214 | Saving an existing row under its own id replaces exactly that row and keeps the table valid, ids unique included |
| AppointmentModels.AppointmentStore.Insert | apps/appointments/models.py:214 | Saving a new row with an id not in use stores it under the next, unused key, and the ids stay unique |
| AppointmentSerializers.DayName | apps/appointments/serializers.py:37-39 | Days 0..6 name Monday..Sunday; negative indices down to -7 wrap as Python lists do; others have no name |
| AppointmentSerializers.DayNamesOfWeekdays | apps/appointments/serializers.py:37-39 | Every weekday has a name, different weekdays have different names, and day 1 is a Monday |
| AppointmentSerializers.ValidateWith | apps/appointments/serializers.py:142-183 | An accepted request is not in the past (for a create), lies inside an available window of the doctor (both ends inclusive) and conflicts with no active appointment |
| AppointmentSerializers.CreateDuration | apps/appointments/serializers.py:185-188 | A given positive duration is kept; otherwise the type's duration is used |
| AppointmentSerializers.PastDates | apps/appointments/serializers.py:143-146 | A new appointment dated before today is rejected; updates do not depend on today |
| AppointmentSerializers.ConflictIsOverlap | apps/appointments/serializers.py:165-181 | Without midnight wrap, a conflict exists iff some active appointment of the doctor that day shares a minute with the new interval; back-to-back is allowed |
| AppointmentSerializers.UpdateIgnoresItself | apps/appointments/serializers.py:177-178 | On update the edited row never conflicts with itself |
| AppointmentSerializers.Create | apps/appointments/serializers.py:185-190 | The stored row has the request's patient, doctor, type, date, time and link, the filled duration and end time, a fresh id, the requested status or else `scheduled`, and the requested non-zero fee or else the type's cost |
| AppointmentSerializers.ValidatedCreateHasNoOverlap | apps/appointments/serializers.py:142-190 | With the corrected check, an accepted and created appointment shares no minute with any active appointment of the doctor that day |
| AppointmentSerializers.AsWrittenAdmitsOverlap | apps/appointments/serializers.py:165-188 | As written, a 60-minute request at 10:00 passes next to a 10:45 booking and is then stored overlapping it; the corrected check rejects it |
| AppointmentViews.FinalStatuses | apps/appointments/views.py:193-256 | Completed, cancelled and no-show never change; a rescheduled appointment can only be cancelled; nothing returns to scheduled |
| AppointmentViews.CheckIn | apps/appointments/views.py:193-207 | Only a confirmed appointment moves to in progress with the check-in time; otherwise 400 with the source's message and no change |
| AppointmentViews.WaitingMinutesBounds | apps/appointments/views.py:224-231 | The recorded wait is the whole minutes of a late start and zero for less than a minute or an early check-in |
| AppointmentViews.Complete | apps/appointments/views.py:210-235 | Only confirmed or in-progress appointments complete, with the completion time and the waiting minutes; otherwise 400 and no change |
| AppointmentViews.Cancel | apps/appointments/views.py:238-256 | Refused unless `can_cancel`; otherwise cancelled with time and canceller, and the reason `""` when the key is absent, NULL when it is null, else the given text |
| AppointmentViews.RescheduleDataParsing | apps/appointments/views.py:278-295 | The view's data, holding instances, fails the serializer's field step on all four related fields whatever the appointment; sent by key it parses to exactly the request `Reschedule` validates |
| AppointmentViews.RescheduleAsWritten | apps/appointments/views.py:259-308 | As written: 404, then the two guards, and past them always 400 with the four related fields reported; never a rescheduled appointment or an integrity error |
| AppointmentViews.Reschedule | apps/appointments/views.py:259-308 | Corrected: with the related fields sent by key, refused unless `can_reschedule` and both new date and time are given; the original is marked rescheduled only when the new request validates, and the new row links back to it, with status scheduled and no creator |
| AppointmentViews.CommitReschedule | apps/appointments/views.py:295-306 | Corrected path: the original is saved as rescheduled, then the new row is inserted pointing to it with no creator (`created_by` is not a serializer field), or the save fails and the original stays marked |
| AppointmentViews.RescheduleBlockedByOriginal | apps/appointments/views.py:279-295 | A new time inside the original's own interval, the same day, is always rejected as a conflict with the original |
| AppointmentViews.RatingError | apps/appointments/models.py:441-476 | No error iff all five ratings lie in 1..5 |
| AppointmentViews.AddFeedbackAsWritten | apps/appointments/views.py:311-334 | As written, feedback is never created: a valid request fails on the missing appointment link |
| AppointmentViews.FeedbackLinkDropped | apps/appointments/serializers.py:82-90 | The `appointment` key the view sets is not kept by the serializer |
| AppointmentViews.AddFeedback | apps/appointments/views.py:311-334 | Feedback is stored only for a completed appointment without feedback and with valid ratings; existing feedback is never overwritten |
| AppointmentViews.Notify | apps/appointments/views.py:475-492 | Only an active entry becomes notified with the time; otherwise 400 and no change |
| AppointmentViews.DoctorsOf | apps/appointments/views.py:176-177 | The doctor of each appointment, in order |
| AppointmentViews.OfDoctorMembers | apps/appointments/views.py:184-186 | A doctor's list holds exactly that doctor's appointments |
| AppointmentViews.NewGroupKeeps | apps/appointments/views.py:178-183 | A doctor seen for the first time opens a new group at the end |
| AppointmentViews.ExtendGroupKeeps | apps/appointments/views.py:184-186 | A doctor seen before gets the appointment appended to its group |
| AppointmentViews.IndexesStep | apps/appointments/views.py:175-186 | The dict keeps pointing each doctor seen to its group |
| AppointmentViews.GroupOne | apps/appointments/views.py:176-186 | One loop turn keeps the grouping and the dict invariants |
| AppointmentViews.GroupByDoctor | apps/appointments/views.py:173-187 | The result is one group per doctor, in first-appearance order, each holding that doctor's appointments in order |
| AppointmentViews.ExactlyOneGroup | apps/appointments/views.py:173-187 | Each appointment appears in exactly one group, its doctor's |
| AppointmentViews.GroupsInFirstAppearanceOrder | apps/appointments/views.py:173-187 | Groups come in the order their doctors first appear |
| AppointmentSlots.DayWindows | apps/appointments/views.py:371-375 | The windows of that doctor, weekday and availability, in table order |
| AppointmentSlots.DayWindowsAscending | apps/appointments/models.py:69 | Rows kept in the table's (day_of_week, start_time) order give a day's windows in ascending start time |
| AppointmentSlots.SlotsFromSound | apps/appointments/views.py:377-401 | Each slot of a window starts on its grid, fits before its end, and is not booked |
| AppointmentSlots.SlotsFromComplete | apps/appointments/views.py:377-401 | Every free grid point that fits is offered |
| AppointmentSlots.DaySlotsSound | apps/appointments/views.py:371-401 | Each slot of a day comes from one of its windows and is free |
| AppointmentSlots.DaySlotsComplete | apps/appointments/views.py:371-401 | Every free grid point of every window of the day is offered |
| AppointmentSlots.RangeSlotsSound | apps/appointments/views.py:368-403 | Every offered slot lies in the range, on the grid of an available window of its weekday, ends at start plus duration, and is not booked |
| AppointmentSlots.RangeSlotsComplete | apps/appointments/views.py:368-403 | Every free grid point of every available window of every day in the range is offered |
| AppointmentSlots.RangeSlotsAscending | apps/appointments/views.py:368-403 | Dates are visited in ascending order |
| AppointmentSlots.AvailableSlots | apps/appointments/views.py:337-405 | Missing doctor id gives 400, a malformed date 400, an unknown doctor 404; otherwise the slots of today and the next seven days, or of the given date |
| AppointmentSlots.DayOfSlots | apps/appointments/views.py:368-403 | The outer loop turn appends the slots of the day's windows |
| AppointmentSlots.WindowSlots | apps/appointments/views.py:377-401 | The inner loop appends exactly the free slots of the window |
| AppointmentSlots.AsWrittenZeroLengthNeverEnds | apps/appointments/views.py:380-401 | As written, for a window whose start is not after its end, a zero slot length never ends the inner loop |
| AppointmentSlots.AsWrittenAgreesWhenPositive | apps/appointments/views.py:380-401 | With a positive slot length the loop as written ends and offers the same slots as the model |
| AppointmentAdmin.AppointmentActionsAreSteps | apps/appointments/admin.py:138-155 | Each action changes a row only by one lifecycle step, only from the statuses it filters on, only in status (and cancel stamps), and is idempotent |
| AppointmentAdmin.WaitingActions | apps/appointments/admin.py:197-208 | Notifying moves only active entries; appointing sets every entry to appointed |
| AppointmentAdmin.UpdateSelectedFrame | apps/appointments/admin.py:138-155 | The selected rows receive the change and no other row does |
| AppointmentAdmin.CountIsSelection | apps/appointments/admin.py:138-155 | The rows actually changed are at most the selection, and fewer when a selected row is left as it was |
| AppointmentAdmin.MarkConfirmed | apps/appointments/admin.py:138-141 | Scheduled rows of the selection become confirmed; the count is the selection's size |
| AppointmentAdmin.MarkCompleted | apps/appointments/admin.py:143-146 | Confirmed and in-progress rows become completed; the count is the selection's size |
| AppointmentAdmin.MarkCancelled | apps/appointments/admin.py:148-155 | Scheduled and confirmed rows become cancelled with time and user; the count is the selection's size |
| AppointmentAdmin.MarkNotified | apps/appointments/admin.py:197-202 | Active entries become notified with the time; the count is the selection's size |
| AppointmentAdmin.MarkAppointed | apps/appointments/admin.py:205-208 | Every selected entry becomes appointed; the count is the selection's size |
| AppointmentAdmin.WholeQuotientThreshold | apps/appointments/admin.py:167-174 | A threshold on the exact quotient is met iff it is met by its whole part |
| AppointmentAdmin.OccupancyByPercent | apps/appointments/admin.py:167-174 | Red from 90 %, yellow from 70 % to below 90 %, green below 70 % |
| AppointmentAdmin.OccupancyMonotone | apps/appointments/admin.py:167-174 | More bookings never make the colour less alarming; a full day is red |
| Calendar.AgeOn | apps/patients/models.py:202-204 | The age is the number of birthdays passed: the anniversary of that age is not after today, the next one is |
| Calendar.AgeUnique | apps/patients/models.py:202-204 | Only one integer has those two properties |
| Calendar.AgeNonNegative | apps/patients/models.py:202-204 | The age is non-negative exactly when the date of birth is not after today |
| Calendar.MonthsBetweenAdditive | apps/doctors/models.py:346-349 | Month counts add up over consecutive periods |
| Calendar.Weekday | apps/appointments/views.py:369 | `weekday()` is in 0..6 and agrees with the ordinal day number |
| Calendar.WeekdayNext | apps/appointments/views.py:403 | Consecutive days have consecutive weekdays, wrapping Sunday to Monday |
| Common.Join | apps/patients/models.py:225 | Joining no parts is empty; one part is itself |
| Common.JoinSnoc | apps/patients/models.py:225 | Joining one more part appends the separator and the part |
| Common.Lower | apps/permissions/models.py:61-62 | `lower()` maps each character, ASCII capitals to small letters |
| Common.Distinct | apps/users/views.py:181-189 | The distinct elements, each once |
| Common.DistinctFirstAppearance | apps/users/views.py:181-189 | Distinct elements come in first-appearance order |
| Common.ToList | apps/permissions/models.py:161 | `list(set)` holds each element of the set once |
| SerialIds.Decimal | apps/patients/models.py:250 | `str(n)` is a non-empty digit string, one digit long iff n < 10 |
| SerialIds.ZeroPad | apps/patients/models.py:250 | `:04d` gives at least four digits, exactly as many as needed |
| SerialIds.ZeroPadValue | apps/patients/models.py:245-250 | Reading back a zero-padded serial gives the serial |
| SerialIds.GreatestWithPrefix | apps/patients/models.py:239-241 | The id chosen is one with the prefix, and none exists only when no id has it |
| SerialIds.GreatestIsMaximum | apps/patients/models.py:239-241 | No id with the prefix comes after it in string order |
| SerialIds.LastFour | apps/patients/models.py:245 | `s[-4:]` has four characters, or all of a shorter string |
| SerialIds.GenerateIdAsWritten | apps/patients/models.py:234-250 | The source's id starts with the prefix |
| SerialIds.AsWrittenRepeatsAfter9999 | apps/patients/models.py:243-250 | As written, after serial 9999 the next id is `<prefix>10000`, and it is issued again once taken |
| SerialIds.MaxSerial | apps/patients/models.py:234-250 | The greatest serial in use (0 if none) |
| SerialIds.GenerateId | apps/patients/models.py:234-250 | The corrected id starts with the prefix, has serial one more than the greatest, and is not in use |
| SerialIds.Pad4Order | apps/patients/models.py:241 | Four-digit serials sort in string order as in number order |
| SerialIds.GreatestHasGreatestSerial | apps/patients/models.py:239-245 | With four-digit serials only, the id chosen by string order has the greatest serial |
| SerialIds.AsWrittenAgreesBelowLimit | apps/patients/models.py:234-250 | With four-digit serials only, the source's rule gives the corrected id |
| PatientModels.GeneratePatientId | apps/patients/models.py:234-250 | `PAT<year>` followed by one more than the greatest serial in use; never an id in use |
| PatientModels.FirstPatientId | apps/patients/models.py:234-250 | The first patient of 2024 gets `PAT20240001` |
| PatientModels.PatientIdAsWrittenRepeats | apps/patients/models.py:234-250 | As written, after `PAT20249999` the id `PAT202410000` is issued while already taken |
| PatientModels.SavePatient | apps/patients/models.py:194-211 | The write fails exactly when the date of birth is after today (the age column's CHECK refuses a negative age); otherwise a patient id is generated only when empty, the age is recomputed, and nothing else changes |
| PatientModels.SavePatientIdempotent | apps/patients/models.py:194-211 | Saving a stored row again the same day changes nothing |
| PatientModels.FullNameJoins | apps/patients/models.py:214-217 | The full name is the space-join of first, middle when present, and last |
| PatientModels.AddressParts | apps/patients/models.py:220-224 | Line 1, line 2 only when present, then city, state and pincode |
| PatientModels.FullAddressSpelledOut | apps/patients/models.py:220-225 | The full address written out with ", " between neighbours |
| PatientModels.InsuranceExpires | apps/patients/models.py:228-231 | Both validity checks end on the expiry date and never return later; a valid policy's expiry makes the patient's insurance valid |
| DoctorModels.SaveDoctor | apps/doctors/models.py:220-227 | The write fails exactly when the date of birth is after today (the age column's CHECK refuses a negative age); otherwise the age is recomputed by birthdays passed and nothing else changes |
| DoctorModels.LicenseExpires | apps/doctors/models.py:254-256 | A licence is not valid on its expiry date nor on any later day |
| DoctorModels.DurationMonths | apps/doctors/models.py:346-349 | The months from start to end, or to today for a current position |
| DoctorModels.DurationMonthsGrowth | apps/doctors/models.py:346-349 | Zero within the starting month; a current position gains twelve a year; a finished one does not change |
| DoctorModels.ActiveNames | apps/doctors/models.py:240-243 | Exactly the names of the active specialties |
| DoctorModels.AllSpecialtiesShape | apps/doctors/models.py:240-243 | No active specialty gives ""; a single one gives its name |
| DoctorModels.HighestQualification | apps/doctors/models.py:246-251 | None iff no active qualification; otherwise an active one with the greatest year |
| DoctorModels.AtMostOnePrimaryIff | apps/doctors/models.py:261-275 | The invariant says exactly that every doctor has at most one primary specialty |
| DoctorModels.DoctorStore.constructor | apps/doctors/models.py:98-410 | The tables start empty and valid |
| DoctorViews.ClearPrimaries | apps/doctors/views.py:176-177 | Clearing a doctor's primaries keeps every link, leaves that doctor none and others as they were |
| DoctorViews.AddLinkKeepsOnePrimary | apps/doctors/views.py:176-184 | A new link after clearing (for a primary) keeps at most one primary per doctor |
| DoctorViews.RemoveLinkKeepsOnePrimary | apps/doctors/views.py:206 | Deleting a link never creates a second primary |
| DoctorViews.AddSpecialty | apps/doctors/views.py:147-187 | Missing id 400, unknown specialty 404, existing pair 400, none changing anything; otherwise the link is created and, when primary, it is the doctor's only primary |
| DoctorViews.RemoveSpecialty | apps/doctors/views.py:190-212 | Missing id 400; deletes exactly that pair if present, otherwise 404; other pairs unchanged |
| DoctorViews.RatingsOf | apps/doctors/views.py:316-318 | The doctor's ratings, at most one per review |
| DoctorViews.RoundHalfEven | apps/doctors/views.py:318 | The rounded value is within half a unit of the exact quotient |
| DoctorViews.SumBounds | apps/doctors/models.py:393-395 | Ratings in 1..5 sum to between their count and five times it |
| DoctorViews.MeanBounds | apps/doctors/views.py:316-322 | A stored average of at least one rating lies between 1.00 and 5.00 |
| DoctorViews.RatingsOfSnoc | apps/doctors/views.py:316-318 | A new review of the doctor appends its rating; others do not change the doctor's ratings |
| DoctorViews.RatingsOfValid | apps/doctors/models.py:393-395 | Every stored rating lies in 1..5 |
| DoctorViews.AddReview | apps/doctors/views.py:307-325 | Invalid or duplicate reviews change nothing; a stored review makes `total_reviews` the review count and the average the rounded mean |
| DoctorViews.SetAvailability | apps/doctors/views.py:265-289 | An upsert on (doctor, day, start): the entry is updated if present, otherwise created with the field defaults; an unknown day or a `consultation_type` outside its choices is rejected, and valid choices stay valid |
| DoctorViews.UpsertGrowsByAtMostOne | apps/doctors/views.py:272-289 | An upsert adds at most one entry, and one exactly when the key was new |
| DoctorSerializers.ValidateUserId | apps/doctors/serializers.py:180-187 | Accepted iff the user exists and has no doctor profile, with the source's messages in that order |
| DoctorSerializers.ValidateLicenseNumber | apps/doctors/serializers.py:189-200 | Accepted iff no doctor other than the one being updated holds the number |
| DoctorSerializers.LicenseMessageIsUnique | apps/doctors/serializers.py:189-200 | A taken number is always refused with the generated unique validator's message; `validate_medical_license_number`'s own message is never produced |
| DoctorSerializers.LicenseOwnNumber | apps/doctors/serializers.py:189-200 | Re-submitting one's own number on an update is accepted, and a number held by another doctor is refused |
| DoctorSerializers.AddLinksResult | apps/doctors/serializers.py:212-263 | From no links the loop fails iff a known id repeats; otherwise the specialties are the known ids, the primaries are the first added (create) or index 0 when known (update), and other doctors keep theirs |
| DoctorSerializers.AddLinksLoop | apps/doctors/serializers.py:212-222 | The loop computes the specification run, stopping at the first failing create |
| DoctorSerializers.FailedStays | apps/doctors/serializers.py:212-222 | After a failed create the rest of the list is not looked at |
| DoctorSerializers.AddQualificationsAppends | apps/doctors/serializers.py:225-238 | The loop only appends rows of the doctor for known qualifications |
| DoctorSerializers.MissingYearFails | apps/doctors/serializers.py:225-238 | A known qualification entry without a year, or with a null institution, ends the request with an error |
| DoctorSerializers.AddQualificationsLoop | apps/doctors/serializers.py:225-238 | The loop computes the specification run |
| DoctorSerializers.QualificationsFailedStay | apps/doctors/serializers.py:225-238 | After a failure the remaining entries are not looked at |
| DoctorSerializers.OnePrimaryFromParts | apps/doctors/serializers.py:202-263 | Changing only one doctor's links, within one primary, keeps the invariant for every doctor |
| DoctorSerializers.CreateDoctor | apps/doctors/serializers.py:202-240 | A date of birth after today fails the profile insert and nothing is written; otherwise the profile is stored under a new key with its age; the error iff the date of birth is after today, a known id repeats or a qualification fails; on success the first added specialty is the only primary |
| DoctorSerializers.AddLinksWithin | apps/doctors/serializers.py:212-222 | A loop run only adds links of the doctor to known specialties |
| DoctorSerializers.WithoutLinksOf | apps/doctors/serializers.py:254 | Deleting a doctor's links leaves it none and every other doctor as before |
| DoctorSerializers.UpdateDoctor | apps/doctors/serializers.py:242-265 | A date of birth after today fails the save and nothing changes; otherwise the given columns, the user included, are set and the age recomputed; without a list the links stay; with one the old set is replaced and only a known first id is primary |
| DoctorSerializers.UpdateUserId | apps/doctors/serializers.py:180-187 | On update `validate_user_id` refuses the doctor's own user; a user it accepts has no profile, and the update moves the profile to that user, its only profile |
| DoctorSerializers.UpdateFirstUnknownNoPrimary | apps/doctors/serializers.py:257-259 | With `update`, a list whose first id is unknown leaves no primary |
| DoctorSerializers.CreateOnePrimary | apps/doctors/serializers.py:212-220 | With `create`, at least one known id gives exactly one primary |
| UserViews.AccountStore.constructor | apps/users/views.py:95-122 | No passwords stored at first |
| UserViews.ChangePassword | apps/users/views.py:95-122 | Unknown target 404; permitted iff self, superuser or `users.update`; the body must validate; the old password is checked only for one's own; success stores the new password and nothing else |
| UserViews.ChangePasswordGate | apps/users/views.py:46-95 | Through the viewset gate, `change_password` needs `users.read`, and for another user's password `users.update` in addition (unless superuser) |
| UserViews.DeniedUpdateBlocksOthers | apps/users/views.py:100-105 | A denial of `users.update` keeps every other user's password out of reach of a non-superuser |
| UserViews.AddToGroup | apps/users/views.py:125-144 | Unknown user 404, missing group id 400, unknown group 404, none changing anything; otherwise the membership is added idempotently and nobody loses a permission |
| UserViews.RemoveFromGroup | apps/users/views.py:147-166 | The same checks; the membership is removed and nobody gains a permission |
| UserViews.MembershipUpdatesArePointwise | apps/users/views.py:125-166 | Only the (user, group) pair changes, and a second call changes nothing more |
| UserViews.NonBlank | apps/users/views.py:183-186 | Keeps exactly the departments that are neither NULL nor empty |
| UserViews.Departments | apps/users/views.py:181-189 | Exactly the non-null, non-empty departments, each once |

## Left out

- HTTP plumbing: DRF responses are result datatypes, and serializer error dictionaries are a single `Invalid` outcome (or, for `reschedule`, the list of failing fields). `get_object` on a missing row is `NotFound`.
- The database and the clock are inputs. `timezone.now()` and `date.today()` are parameters; there is no timezone conversion.
- Concurrency and transactions: none are configured. Partial writes of a failed request persist, as in the source (for example the doctor row of a `create` whose specialty loop then fails).
- Password hashing: `check_password` and `set_password` compare and store the plain secret.
- Display names (user, group and doctor names) are parameters of the methods that print them.
- Floating point:
  - BMI is not modelled.
  - `occupancy_percentage` is compared through exact integer arithmetic.
  - The review average is the exact mean rounded half to even in hundredths. The source divides binary floats before `round`, so a tie that lands just off a half in binary is not modelled.
- `format_html` output, querysets with filters and aggregates, statistics endpoints, list and search endpoints, admin screen declarations, and management commands.
- The permissions admin file uses a permission model that does not exist, so it is not part of this model.
- The `dispatch` response object: `JsonResponse` is not imported in the mixin, so the outcome is modelled abstractly.
- Date parsing: `strptime` is a `DateParam` given already parsed or marked malformed.
- Field coercion by serializers (string trimming, type conversion) is assumed done, except for the related fields of `reschedule`'s data. `is_primary` is taken as a JSON boolean.
- A JSON `null` in `bulk_create_permissions`'s `operations` is taken as an absent key, which gives the four CRUD operations; in the source `get` returns None and iterating it fails with a server error.
- Common.Lower: lowercases ASCII capitals only. Python's `lower()` also lowercases other Unicode letters, so a display name with non-ASCII capitals gets a different default codename in the source.
- AppointmentSerializers.Create: `priority`, `is_paid` and the text columns are writable too, but they are not columns of the model's `Appointment`. A plain update through the serializer may set any status; `AppointmentViews.FinalStatuses` and `StatusStep` describe the lifecycle actions only.
- DoctorSerializers.CreateDoctor: a profile insert refused by the age CHECK leaves the key counter as it was; PostgreSQL's sequence would have used up that key.
- DoctorSerializers.UpdateDoctor: the profile columns other than the user, the date of birth and the licence number and expiry (gender, address, fees and so on) are not columns of the model's `Doctor`, so their writes are not modelled.
- AppointmentViews.RescheduleBlockedByOriginal: holds of the corrected `Reschedule`. As written no reschedule request reaches `validate` (see Findings).
- AppointmentViews.CommitReschedule: models the corrected path, which the source as written never reaches (see Findings).
- `add_feedback`'s serializer fields other than the five ratings are not modelled.
- The admin's `day_name` is modelled by `AppointmentSerializers.DayName`, which does the same indexing. A stored `day_of_week` of 7 or more raises instead of naming a day.
- DoctorModels.HighestQualification: on a tie in `year_completed` the database order is unspecified; the model picks the first row.
- AppointmentModels.GenerateAppointmentId: states only the corrected rule's prefix and freshness, not the serial value; the serial is stated by SerialIds.GenerateId.
- AppointmentSlots.AvailableSlots: the as-written loop does not end for a window of slot length 0. The model uses the corrected loop, which offers no slot for such a window (see Findings).
- AppointmentViews.AddFeedback: models the evidently intended behaviour. The source as written never stores feedback (see Findings).
- Behaviour worth knowing that the code has and the model keeps:
  - The admin bulk actions report the size of the whole selection, not the number of rows changed.
  - A rescheduled appointment can still be cancelled.
  - A reschedule to a time inside the original's own interval conflicts with the original.
  - End times wrap past midnight.
  - `add_to_group` writes no log entry, unlike the permission views' `add_user`, which logs `add_user_to_group`.
  - In the doctor serializer, a qualification entry with a known id and no year fails with an integrity error after the doctor row exists.

## Findings

| source | as written | input that shows it | evidently intended | confidence | as-written member | corrected member |
|---|---|---|---|---|---|---|
| apps/patients/models.py:234-250 | The next serial is `int(last[-4:]) + 1` of the id greatest in string order | Ids `PAT20249999` and `PAT202410000`: the greatest in string order is `PAT20249999`, so `PAT202410000` is issued again | A serial one more than the greatest in use, never an id in use | not executed | SerialIds.AsWrittenRepeatsAfter9999 | SerialIds.GenerateId |
| apps/appointments/views.py:380-401 | The inner loop advances by `slot_duration`, which the field allows to be 0 | A time slot of 9:00-17:00 with `slot_duration = 0` | A window of slot length 0 offers no slot, and the request ends | not executed | AppointmentSlots.AsWrittenZeroLengthNeverEnds | AppointmentSlots.WindowSlots |
| apps/appointments/serializers.py:165-188 | The conflict check assumes 30 minutes when the request gives no duration, but `create` stores the type's duration | A 60-minute type at 10:00 with a booking at 10:45: the check accepts, and the stored row overlaps | The conflict check uses the duration `create` will store | not executed | AppointmentSerializers.AsWrittenAdmitsOverlap | AppointmentSerializers.ValidatedCreateHasNoOverlap |
| apps/appointments/views.py:327-333 | `data['appointment']` is set, but `AppointmentFeedbackSerializer` does not keep the field, so the save lacks the required link | Any valid feedback for a completed appointment without feedback | The feedback is stored for the appointment | not executed | AppointmentViews.AddFeedbackAsWritten | AppointmentViews.AddFeedback |
| apps/appointments/views.py:278-308 | `new_appointment_data` holds the patient, doctor, type and original appointment as model instances, while the serializer's related fields expect primary keys, so `is_valid()` fails and the view answers 400 | Any appointment that `can_reschedule`, with `new_date` and `new_time` given | The new appointment is validated and created, and the original marked rescheduled | not executed | AppointmentViews.RescheduleAsWritten | AppointmentViews.Reschedule |
