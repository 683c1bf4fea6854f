# Nebula Workspace: request handlers over an in-memory store

This project models the request-decision and record-ownership layer of
Nebula Workspace, a multi-tenant workspace application. Each API handler
runs a short sequence of steps:

- a session check (401);
- validation of the request body (a schema failure is thrown and answered 500);
- a membership, ownership or existence lookup (403, 404 or 400);
- one query or one insert/update on the store.

The model states, for every handler, the reply and the exact new contents
of the store. Beside the handlers it models:

- the navigation gate that runs before every page;
- the credential check and the sign-in, jwt and session callbacks of the
  authentication setup;
- the default workspace that registration and a first Google sign-in
  create;
- the activity logger;
- the avatar initials of the top bar.

Structure:

- `Common`: optional values, loosely typed JSON body fields (`Field`),
  replies, and stamped rows. A row's id is generated from its creation tick
  (`IdFor`), which is injective. It also holds the query shapes the handlers
  use: `findMany ... orderBy createdAt desc [take n]` (`FindMany`,
  `FindManyTake`), `findUnique` by id (`FindById`) and `updateMany`.
- `Store`: the tables and the `Database` class, one `seq` field per table and
  a clock that stands for `createdAt`.
  - `WellFormed` is the invariant: stamped tables, unique e-mails, unique
    slugs, and memberships that link existing users and workspaces.
  - Each insert fails, changing nothing, exactly where the database would
    throw: a taken e-mail or slug, or a dangling foreign key.
- One module per core file:
  - `Middleware`, `Topbar`, `Auth`, `Provisioning`, `ActivityLogger`;
  - `RegisterRoute`, `WorkspacesRoute`, `ProjectsRoute`, `TasksRoute`,
    `NotesRoute`, `CommentsRoute`, `NotificationsRoute`, `ActivityRoute`,
    `ProfileRoute`, `CheckoutRoute`.
  - Handlers that only read are functions over a `Tables` snapshot.
    Handlers that write are methods that modify the `Database`.

Conventions:

- The signed-in user's id is the parameter `caller`. `None` means no session.
- Query parameters are `Option<string>`. A parameter constrains the query
  only when it is truthy (`Given`).
- `Date.now()` is the parameter `now`.

Three behaviours of the handlers are easy to misread. The model keeps them
as the code has them:

- Marking another user's notification read is not a silent no-op. The
  `update` finds no row with that id and owner and throws, so the handler
  answers 500 and nothing changes (`NotificationsRoute.MarkNotifications`).
- A comment may name both a task and a note. The handler rejects only a
  comment that names neither (`CommentsRoute.CreateComment`).
- Note creation checks neither the project nor membership. An unknown
  project id only makes the insert fail (`NotesRoute.CreateNote`).

## Model

| member | source | states |
|---|---|---|
| Middleware.Gate | src/middleware.ts:5-22 | a signed-in visitor on a path starting "/login" or "/register" goes to /dashboard; a visitor without a session on any page that is neither an auth page nor "/" nor under "/pricing" goes to /login; every other request passes (each as an if-and-only-if) |
| Middleware.RedirectsSettle | src/middleware.ts:7-22 | following a redirect lands on a page that passes for the same visitor (no loop); a signed-in visitor is never sent to /login, one without a session never to /dashboard |
| Middleware.PricingPrefixIsPublic | src/middleware.ts:9-20 | "/pricingx" is public because of the prefix test, while "/dashboard" sends a visitor without a session to /login |
| Topbar.Split | src/components/layout/topbar.tsx:28 | `split(" ")` yields at least one piece and no piece contains the separator |
| Topbar.JoinSplit | src/components/layout/topbar.tsx:28 | joining the pieces with the separator gives back the name (the split loses nothing) |
| Topbar.SplitNoSeparator | src/components/layout/topbar.tsx:28 | a name without spaces is one piece |
| Topbar.SplitAtSeparator | src/components/layout/topbar.tsx:28 | the piece before the first space comes first, followed by the split of the rest |
| Topbar.SplitAppend | src/components/layout/topbar.tsx:28 | splitting at any one separator splits the text on either side independently: the pieces of the whole are the pieces of the left part followed by those of the right part |
| Topbar.SplitAllEmpty | src/components/layout/topbar.tsx:28 | every piece is empty exactly when the name is made only of spaces |
| Topbar.FirstCharsEmpty | src/components/layout/topbar.tsx:29-30 | the joined first characters are empty exactly when every piece is empty (an empty piece's `n[0]` is `undefined` and joins as nothing) |
| Topbar.FirstChars | src/components/layout/topbar.tsx:29-30 | `map((n) => n[0]).join("")` gives at most one character per piece |
| Topbar.FirstCharsFrom | src/components/layout/topbar.tsx:29-30 | every initial is the first character of some non-empty piece |
| Topbar.FirstCharsAppend | src/components/layout/topbar.tsx:29-30 | the first characters of concatenated piece lists are the concatenation of each list's first characters |
| Topbar.EmptyPieceContributesNothing | src/components/layout/topbar.tsx:29-30 | an empty piece inserted anywhere among the pieces adds nothing to the joined first characters |
| Topbar.Upper | src/components/layout/topbar.tsx:31 | upper-casing keeps the length and maps each character to its upper case |
| Topbar.InitialsShape | src/components/layout/topbar.tsx:27-31 | the initials are no longer than the number of space-separated pieces and contain no lower-case letter |
| Topbar.Initials | src/components/layout/topbar.tsx:27-31 | a missing name and an all-space name (the empty one included) give "U", as `|| "U"` does; any other name gives its upper-cased first characters, which are never empty |
| Topbar.DoubledSpaceContributesNothing | src/components/layout/topbar.tsx:28-30 | a doubled space anywhere in the name gives the same initials as a single one ("Ada  Lovelace" and "Ada Lovelace" both give "AL") |
| Common.Digits | src/app/api/workspaces/route.ts:55 | the decimal rendering of a number is non-empty, all digits, ends with the last digit, has two or more digits from 10 up, and starts with '0' only for zero (no leading zero) |
| Common.DigitsValue | src/app/api/workspaces/route.ts:55 | the rendering read back as a decimal numeral is the number rendered |
| Common.DigitsInjective | src/app/api/workspaces/route.ts:55 | distinct numbers render differently |
| Common.IdForInjective | src/app/api/auth/register/route.ts:27-33 | generated ids of distinct ticks differ |
| Common.FreshId | src/app/api/auth/register/route.ts:27-33 | the id generated for a new row is used by no row of the table |
| Common.StampedAppend | src/app/api/auth/register/route.ts:27-33 | appending the new row keeps the table in creation order with generated ids, and adds exactly its id |
| Common.FindById | src/app/api/tasks/route.ts:83-85 | `findUnique` by id finds a row exactly when the id is in the table, and the row it finds has that id |
| Common.FindByIdStamped | src/app/api/workspaces/route.ts:17-31 | in a stamped table, looking a row's id up finds that very row |
| Common.Select | src/app/api/projects/route.ts:38-39 | a `where` keeps exactly the matching rows, in table order |
| Common.FindMany | src/app/api/projects/route.ts:38-55 | `findMany` with `orderBy createdAt desc` returns exactly the matching rows, newest first |
| Common.FindManyAppend | src/app/api/projects/route.ts:38-55 | a row added to a table is listed first when it matches, and the listing is otherwise unchanged |
| Common.FindManyTake | src/app/api/notifications/route.ts:12-16 | `take n` returns at most n matching rows, newest first |
| Common.TakeKeepsNewest | src/app/api/notifications/route.ts:12-16 | a matching row left out means the limit was reached and that every returned row is newer |
| Common.FindManyTakeNone | src/app/api/activity/route.ts:32-38 | nothing is returned when no row matches |
| Common.FindManyTakeAppend | src/app/api/activity/route.ts:41-54 | the newest matching row comes first under `take` |
| Common.UpdateMany | src/app/api/notifications/route.ts:56-62 | `updateMany` changes the columns of exactly the matching rows and keeps ids, ticks and order |
| Common.StampedUpdate | src/app/api/notifications/route.ts:56-62 | updating columns keeps a table stamped and keeps its set of ids |
| Store.FindUserByEmail | src/app/api/auth/register/route.ts:12-14 | the lookup by e-mail finds a user exactly when one has that e-mail, and the user it finds has it |
| Store.FoundUserIsUnique | src/lib/auth.ts:51-53 | with unique e-mails, every user with that e-mail is the one the lookup finds |
| Store.MembershipsOf | src/app/api/workspaces/route.ts:17-22 | the caller's memberships are exactly the membership rows with the caller's user id |
| Store.MembershipsAppend | src/lib/auth.ts:113-119 | a new membership is listed last among its user's memberships and leaves other users' lists alone |
| Store.MemberLinks | src/app/api/projects/route.ts:78-95 | a member's user and workspace both exist, so inserting a member's project cannot hit a dangling key |
| Store.AddUserKeepsWellFormed | src/app/api/auth/register/route.ts:27-33 | a user with an unused e-mail can be added without breaking the store invariant |
| Store.AddWorkspaceKeepsWellFormed | src/app/api/auth/register/route.ts:36-41 | a workspace with an unused slug can be added without breaking the store invariant |
| Store.AddMemberKeepsWellFormed | src/app/api/auth/register/route.ts:44-50 | a membership of an existing user and workspace can be added without breaking the store invariant |
| Store.AddProjectKeepsWellFormed | src/app/api/projects/route.ts:89-95 | appending a project keeps the store invariant |
| Store.AddTaskKeepsWellFormed | src/app/api/tasks/route.ts:102-111 | appending a task keeps the store invariant |
| Store.AddNoteKeepsWellFormed | src/app/api/notes/route.ts:68-74 | appending a note keeps the store invariant |
| Store.AddCommentKeepsWellFormed | src/app/api/comments/route.ts:29-35 | appending a comment keeps the store invariant |
| Store.AddActivityKeepsWellFormed | src/lib/activity.ts:12-21 | appending an activity row keeps the store invariant |
| Store.Renamed | src/app/api/users/profile/route.ts:21-26 | the user table after the update: the row with that id gets the new columns, every other row and every id, tick and position stay |
| Store.RenamedKeepsWellFormed | src/app/api/users/profile/route.ts:21-26 | updating a user's name and image keeps the store invariant, e-mails included |
| Store.MarkReadKeepsWellFormed | src/app/api/notifications/route.ts:47-53 | marking one notification read keeps the store invariant |
| Store.MarkAllReadKeepsWellFormed | src/app/api/notifications/route.ts:56-62 | marking a user's notifications read keeps the store invariant |
| Store.Database.InsertUser | src/app/api/auth/register/route.ts:27-33 | `user.create` fails exactly on a taken e-mail (nothing changes); otherwise appends the row for the current tick |
| Store.Database.InsertWorkspace | src/app/api/auth/register/route.ts:36-41 | `workspace.create` fails exactly on a taken slug (nothing changes); otherwise appends the row |
| Store.Database.InsertMember | src/app/api/auth/register/route.ts:44-50 | `workspaceMember.create` fails exactly on a dangling user or workspace; otherwise appends the row |
| Store.Database.InsertProject | src/app/api/projects/route.ts:89-95 | `project.create` fails exactly on a dangling workspace or creator; otherwise appends the row |
| Store.Database.InsertTask | src/app/api/tasks/route.ts:102-111 | `task.create` fails exactly on a dangling project, creator or assignee; otherwise appends the row |
| Store.Database.InsertNote | src/app/api/notes/route.ts:68-74 | `note.create` fails exactly on a dangling project or creator; otherwise appends the row |
| Store.Database.InsertComment | src/app/api/comments/route.ts:29-35 | `comment.create` fails exactly on a dangling task, note or author; otherwise appends the row |
| Store.Database.InsertActivity | src/lib/activity.ts:12-21 | `activityLog.create` fails exactly on a dangling workspace or actor; otherwise appends the row |
| Store.Database.UpdateUser | src/app/api/users/profile/route.ts:21-26 | `user.update` by id fails exactly when no user has the id; otherwise only that row's columns change, and the updated row is returned |
| Store.Database.MarkNotificationRead | src/app/api/notifications/route.ts:47-53 | the update scoped to id and owner succeeds exactly when such a row exists, and then sets only its read flag |
| Store.Database.MarkAllNotificationsRead | src/app/api/notifications/route.ts:56-62 | all of the user's unread notifications are marked read |
| Store.FindRenamed | src/app/api/users/profile/route.ts:21-33 | the row the update answers with is the row found before it with the new name, the image replaced only when one is given, and e-mail and password kept; an id with no row stays without one |
| Store.UserWith | src/app/api/users/profile/route.ts:23-26 | the name is always replaced, the image only when one is given, and e-mail and password are kept |
| Store.MarkRead | src/app/api/notifications/route.ts:47-53 | only the row with that id and owner gets `read` set; every other row and column is unchanged |
| Store.MarkAllRead | src/app/api/notifications/route.ts:56-62 | exactly the user's rows end up read; other users' rows and all other columns are unchanged |
| Provisioning.DefaultsDetermineUser | src/app/api/auth/register/route.ts:36-41 | distinct users get distinct default slugs, and a default workspace name determines the user's name |
| Provisioning.TemplateText | src/lib/auth.ts:107 | a present name is written as it is (a missing one as "null") |
| Provisioning.DefaultWorkspaceName | src/lib/auth.ts:107 | the default name is the user's name followed by "'s Workspace" |
| Provisioning.DefaultWorkspaceSlug | src/lib/auth.ts:108 | the default slug is the user's id followed by "-workspace", so it ends in 'e' |
| Provisioning.Provisioned | src/lib/auth.ts:105-119 | provisioning touches only the workspaces and memberships and advances the clock by the two inserts |
| Provisioning.ProvisionedOwnsDefault | src/lib/auth.ts:105-119 | after provisioning, the workspace with the default name and slug exists and the user is its OWNER |
| Provisioning.ProvisionDefaultWorkspace | src/lib/auth.ts:103-119 | creates the workspace "<name>'s Workspace" with slug "<id>-workspace", then the OWNER membership; fails, with nothing written, exactly when that slug is taken |
| Auth.HashProperties | src/lib/auth.ts:59 | a hash matches the password it was made from; a password matches a hash exactly when it agrees with the hashed one on the first 72 characters, so up to that length it matches no other password; a hash is never empty |
| Auth.HashInput | src/lib/auth.ts:59 | the hashing library reads at most the first 72 characters of a password, and all of a shorter one |
| Auth.IsEmail | src/lib/auth.ts:18 | accepted exactly when the address has one '@', with text before it and at least one character after it, a '.' after it, and no space |
| Auth.LoginValid | src/lib/auth.ts:17-20 | the login schema: an e-mail address and a password string of at least six characters |
| Auth.PasswordAccepted | src/lib/auth.ts:55-61 | the stored password passes the truthiness test and `compare` exactly when it is the hash of the given password |
| Auth.IndexOf | src/lib/auth.ts:18 | the index found is the first occurrence of the character, or the length when there is none |
| Auth.Authorize | src/lib/auth.ts:42-71 | `authorize` returns a user exactly when the input passes the login schema and a user with that e-mail has a non-empty stored hash the password matches; the result is that user's id, e-mail, name and image |
| Auth.AuthorizeFindsTheUser | src/lib/auth.ts:51-70 | with unique e-mails, the stored user is returned when the password is accepted, and null otherwise |
| Auth.SignIn | src/lib/auth.ts:95-123 | the callback never answers false. A Google sign-in of an existing user with no membership provisions the default workspace, and throws when its slug is taken; a throw leaves the store unchanged. Any other sign-in changes nothing |
| Auth.SecondGoogleSignInProvisionsNothing | src/lib/auth.ts:97-103 | after a first Google sign-in the user has exactly one membership, the OWNER one, so a second sign-in provisions nothing |
| Auth.Jwt | src/lib/auth.ts:85-94 | a user sets the token's subject to the user's id; only an `update` trigger with a session copies name and picture; nothing else changes |
| Auth.SessionCallback | src/lib/auth.ts:75-84 | a session with a user gets the token's subject as its id when the token has one, and the token's name and picture |
| RegisterRoute.Register | src/app/api/auth/register/route.ts:6-63 | a schema failure gives 500 and a taken e-mail gives 400, both with no change. Otherwise the user is stored with the hashed password and gets the default workspace and OWNER membership (201 with the user's id). A taken default slug gives 500 with the user row left behind. A 201 means the same e-mail and password log the user in |
| RegisterRoute.RegisterValid | src/app/api/auth/register/route.ts:9 | the registration schema: a name of at least two characters and the login schema's e-mail and password |
| RegisterRoute.NewUser | src/app/api/auth/register/route.ts:24-33 | the stored user has the given name and e-mail, no image, and a password hash that the given password matches and, up to 72 characters, no other |
| RegisterRoute.RegisteredUserCanLogIn | src/app/api/auth/register/route.ts:24-33 | the stored hash makes the credential check return the new user, before and after the workspace is provisioned |
| RegisterRoute.RegisteredUserOwnsOneWorkspace | src/app/api/auth/register/route.ts:35-50 | after a successful registration the user has exactly one membership, the OWNER one, on the new workspace "<name>'s Workspace" |
| WorkspacesRoute.Lower | src/app/api/workspaces/route.ts:55 | lower-casing keeps the length and lower-cases each ASCII letter |
| WorkspacesRoute.IsSpace | src/app/api/workspaces/route.ts:55 | the characters `\s` matches: tab to carriage return, space, no-break space, the Unicode space separators, line and paragraph separators and the byte-order mark |
| WorkspacesRoute.DropSpaces | src/app/api/workspaces/route.ts:55 | what follows a whitespace run starts with a non-whitespace character |
| WorkspacesRoute.Slugify | src/app/api/workspaces/route.ts:55 | the slug base contains no whitespace and no upper-case letter |
| WorkspacesRoute.SlugifyWord | src/app/api/workspaces/route.ts:55 | a word without whitespace is only lower-cased |
| WorkspacesRoute.DropSpacesRun | src/app/api/workspaces/route.ts:55 | a whitespace run of any length is dropped whole |
| WorkspacesRoute.SlugifyRun | src/app/api/workspaces/route.ts:55 | a word, then a whitespace run, then more text becomes the lower-cased word, one '-' and the slug of the rest |
| WorkspacesRoute.WorkspaceSlug | src/app/api/workspaces/route.ts:55 | a created slug has no whitespace and no upper-case letter, and ends with "-" and the decimal rendering of the creation time |
| WorkspacesRoute.CreatedSlugIsNeverDefault | src/app/api/workspaces/route.ts:55 | a created workspace's slug ends in a digit, so it never equals a default workspace's slug |
| WorkspacesRoute.List | src/app/api/workspaces/route.ts:10-39 | 401 without a session; otherwise one entry per membership, and an entry is listed exactly when it is a workspace the caller belongs to with that membership's role |
| WorkspacesRoute.ListedExactly | src/app/api/workspaces/route.ts:17-31 | the mapped memberships are exactly the caller's workspaces with their roles |
| WorkspacesRoute.EntryIsListed | src/app/api/workspaces/route.ts:17-31 | each mapped membership is a workspace the caller belongs to |
| WorkspacesRoute.ListedIsEntry | src/app/api/workspaces/route.ts:17-31 | each workspace the caller belongs to is among the mapped memberships |
| WorkspacesRoute.CreateValid | src/app/api/workspaces/route.ts:6-8 | the creation schema: a name string of at least two characters |
| WorkspacesRoute.Create | src/app/api/workspaces/route.ts:41-79 | 401 without a session. A name shorter than 2 gives 500, and so does a taken slug, both with no change. Otherwise one workspace with slug "<slug of name>-<now>" and one OWNER membership of the caller are stored (201 with id, name, slug). A membership that cannot be stored gives 500 and leaves the workspace. After a 201 the caller's listing shows the workspace with role OWNER |
| ProjectsRoute.ListProjects | src/app/api/projects/route.ts:12-65 | 401 without a session, then 400 without a workspace id, then 403 for a non-member; otherwise exactly the workspace's projects, newest first |
| ProjectsRoute.ProjectValid | src/app/api/projects/route.ts:6-10 | the creation schema: a name of at least two characters, an optional description string, a workspace id string |
| ProjectsRoute.CreateProject | src/app/api/projects/route.ts:67-115 | 401 without a session, 500 for an invalid body, 403 for a non-member, all with no change. Otherwise the project is stored with the requested workspace and the caller as creator (201), and it heads that workspace's listing |
| ProjectsRoute.ProjectListedFirst | src/app/api/projects/route.ts:38-55 | a project stored by a member is listed first in its workspace, ahead of the earlier listing |
| TasksRoute.ParseStatus | src/app/api/tasks/route.ts:9 | a string parses exactly when it names a status, and to the status it names |
| TasksRoute.ParsePriority | src/app/api/tasks/route.ts:10 | a string parses exactly when it names a priority, and to the priority it names |
| TasksRoute.StatusField | src/app/api/tasks/route.ts:9 | a missing status defaults to TODO, a string must name a status and gives that status, anything else fails |
| TasksRoute.PriorityField | src/app/api/tasks/route.ts:10 | a missing priority defaults to MEDIUM, a string must name a priority and gives that priority, anything else fails |
| TasksRoute.TaskValid | src/app/api/tasks/route.ts:6-14 | the creation schema: a non-empty title, optional description, due date and assignee strings, a valid status and priority, a project id string |
| TasksRoute.ListTasks | src/app/api/tasks/route.ts:16-70 | 401 without a session; 500 for a status naming no status; otherwise exactly the tasks matching every given filter, newest first, for any signed-in caller (no membership check) |
| TasksRoute.NewTask | src/app/api/tasks/route.ts:102-111 | the stored task has the caller as creator, the given project, title, description and assignee, status TODO and priority MEDIUM by default or the named ones, and the given due date exactly when it is non-empty |
| TasksRoute.ProjectWorkspace | src/app/api/tasks/route.ts:83-89 | the project lookup succeeds exactly when the project exists, and then gives that project's workspace id |
| TasksRoute.CreateTask | src/app/api/tasks/route.ts:72-139 | 401, then 500 for an invalid body, then 404 for an unknown project (before membership), then 403 for a non-member of the project's workspace, then 500 for an unknown assignee, all with no change; otherwise the new task row is stored (201) |
| TasksRoute.NewTaskListedFirst | src/app/api/tasks/route.ts:40-60 | a stored task heads the listing filtered by its project, status and assignee, for any caller |
| NotesRoute.ListNotes | src/app/api/notes/route.ts:12-56 | 401 without a session; otherwise exactly the notes matching the given project and the given workspace of the note's project, all notes when neither is given, newest first, for any caller |
| NotesRoute.NoteValid | src/app/api/notes/route.ts:6-10 | the creation schema: a non-empty title, a content string, a project id string |
| NotesRoute.CreateNote | src/app/api/notes/route.ts:58-94 | 401, then 500 for an invalid body; with no project or membership check, the note is stored with the caller as creator (201), or the insert fails on an unknown project (500, no change) |
| CommentsRoute.CreateComment | src/app/api/comments/route.ts:12-55 | 401, then 500 for an invalid body, then 400 when neither a task nor a note id is truthy, all with no change. Naming both is accepted. With no membership check the comment is stored with the caller as author (201), or the insert fails on an unknown task or note (500) |
| CommentsRoute.CommentValid | src/app/api/comments/route.ts:6-10 | the creation schema: a non-empty body, optional task and note id strings |
| CommentsRoute.ListComments | src/app/api/comments/route.ts:57-94 | 401 without a session; otherwise exactly the comments matching every given id, all comments when none is given, newest first |
| NotificationsRoute.ListNotifications | src/app/api/notifications/route.ts:5-33 | 401 without a session; otherwise at most 20 of the caller's notifications, newest first, leaving out only older ones when 20 are listed, and the count of all the caller's unread notifications |
| NotificationsRoute.PageKeepsNewest | src/app/api/notifications/route.ts:12-16 | a notification of the caller missing from the page is older than all 20 listed |
| NotificationsRoute.UnreadCounted | src/app/api/notifications/route.ts:18-23 | the count query counts exactly the caller's unread notifications |
| NotificationsRoute.MarkNotifications | src/app/api/notifications/route.ts:35-73 | 401 without a session. A truthy string id marks that notification read when it is the caller's, and otherwise gives 500 with no change. A truthy non-string id gives 500. No truthy id marks all the caller's notifications read |
| NotificationsRoute.MarkAllReadClearsUnread | src/app/api/notifications/route.ts:54-62 | after marking all, the caller has no unread notification and every other user's unread set is unchanged |
| NotificationsRoute.MarkReadScoped | src/app/api/notifications/route.ts:45-53 | marking one read changes no other user's unread set and removes only that id from the owner's |
| NotificationsRoute.MarkingIdempotent | src/app/api/notifications/route.ts:45-63 | marking one, or all, twice is the same as once |
| ActivityLogger.MetadataOf | src/lib/activity.ts:19 | a missing or falsy metadata is stored as `{}`, a truthy one as given |
| ActivityLogger.LogEntry | src/lib/activity.ts:13-20 | the log row carries the given workspace, actor, action, entity type and id, and `{}` as metadata exactly when the given one is falsy |
| ActivityLogger.LoggedKeepsWellFormed | src/lib/activity.ts:12-21 | a logged row keeps the store well formed and is newer than every earlier log row |
| ActivityLogger.LogActivity | src/lib/activity.ts:3-26 | appends exactly one row with the given workspace, actor, action, entity type and id, or, when the store refuses it, changes nothing; it never reports a failure and never touches earlier rows |
| ActivityRoute.WorkspaceIdsOf | src/app/api/activity/route.ts:32-38 | the ids collected from the caller's memberships are exactly the workspaces the caller belongs to |
| ActivityRoute.ListActivity | src/app/api/activity/route.ts:5-64 | 401 without a session; 403 for a given workspace the caller is not in; otherwise at most 20 rows, newest first, all from workspaces the caller belongs to, only the given one's when given, none without memberships; a matching row is left out only when 20 newer ones are listed |
| ActivityRoute.FeedKeepsNewest | src/app/api/activity/route.ts:41-54 | a matching log row missing from a feed page is older than all 20 rows listed |
| ActivityRoute.LoggedRowHeadsFeed | src/app/api/activity/route.ts:41-54 | a row just logged for a workspace the caller belongs to heads the caller's feed of that workspace |
| ProfileRoute.NewImage | src/app/api/users/profile/route.ts:25 | the image is written only when a non-empty string is given |
| ProfileRoute.ProfileValid | src/app/api/users/profile/route.ts:6-9 | the update schema: a name of at least two characters, an optional image string |
| ProfileRoute.UpdateProfile | src/app/api/users/profile/route.ts:11-43 | 401, then 500 for a name shorter than 2, then 500 when the caller has no user row, all with no change. Otherwise only the users table changes, and in it only the caller's row: its name, its image when a non-empty one is given, e-mail and password kept (200 with the caller's id, the new name, the kept e-mail and the stored image) |
| CheckoutRoute.FirstOwned | src/app/api/stripe/checkout/route.ts:21-29 | an owned membership is found exactly when the caller owns a workspace, and the one found is the caller's with role OWNER |
| CheckoutRoute.Checkout | src/app/api/stripe/checkout/route.ts:6-52 | 401, then 400 for a falsy price, then 400 when the caller owns no workspace. Otherwise the checkout is requested with the given price, the caller's id and a workspace the caller owns |

## Left out

- User interface, 3-D background, upload endpoint, payment webhook and the
  payment library's wrapper are not part of this model. They are
  presentation or calls into external services.
- The payment provider is not modelled. `CheckoutRoute.Checkout` answers
  with the arguments the handler passes to the checkout-session call. The
  provider's URL, and a failure of that call (500), are not modelled.
- Auth.Hash and Auth.Matches stand in for the hashing library. The salt, the
  cost factor and the real algorithm are not modelled, so a hash is the
  algorithm prefix followed by the bytes the library reads. The library's
  72-byte input limit is modelled: only the first 72 characters count.
  Characters stand for bytes; a password with characters that take several
  bytes in UTF-8 reaches the limit sooner than modelled.
- Auth.IsEmail approximates the schema library's e-mail check: one '@' with
  text on both sides, a '.' after it, and no space. Its exact grammar is not
  modelled.
- src/lib/validation/auth.ts (the registration schema) is not part of this
  model. `RegisterRoute.RegisterValid` assumes a name of at least two
  characters, an e-mail and a password of at least six characters, the same
  as the login schema.
- Sessions come from the authentication library. The model takes the
  signed-in user's id as the parameter `caller`. Token signing, provider
  wiring and the middleware's `matcher` are not modelled.
- Auth.SignIn takes the signing-in user's id and name as parameters. The
  adapter's creation of the OAuth user row is not modelled. The user's
  `workspaces` relation is taken to be their membership rows.
- Response projections (`include`/`select` of creator, assignee, author,
  project, counts) are not modelled. Replies carry the stored rows.
- TasksRoute.NewTask and TasksRoute.CreateTask store the due date as the
  given string. Parsing it into a date is not modelled, so an unparseable due
  date, which the store rejects (answered 500), is answered 201 here.
- Topbar.FirstChars and Topbar.Initials take a piece's first whole character.
  The source's `n[0]` takes one UTF-16 code unit, so a piece that starts
  outside the Basic Multilingual Plane contributes a lone high surrogate there
  and the whole character here.
- A body that is not JSON is not modelled (the handler throws and answers
  500). Bodies are modelled as already-parsed fields. The same goes for
  store failures other than the constraints above (connection loss and the
  like).
- Concurrency and crashes are not modelled. Each request runs alone, from
  start to end. The multi-step inserts are modelled as the non-atomic
  sequences they are, with nothing in between.
- Store.Database.InsertMember does not enforce uniqueness of the (user,
  workspace) pair. No modelled handler can insert a duplicate: every
  membership it creates is for a workspace created in the same request.
- Generated ids are "c" followed by the creation tick, not random cuids.
  Only their uniqueness is relied on.
- The letter models are ASCII-only: `Topbar.Upper`, `WorkspacesRoute.Lower`.
  The whitespace class `\s` is modelled in full. Schema minimum lengths are
  counted in characters, not in UTF-16 code units.
- CheckoutRoute.FirstOwned takes the first owned membership in table order.
  The database's `findFirst` without an ordering may return any of them. The
  contract says only that the workspace is one the caller owns.
