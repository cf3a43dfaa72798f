# GoNote core, modelled in Dafny

GoNote is a note-taking application with a React client and a Go (gin and
gorm over SQLite) server. This project models the core of both halves and
proves properties of the model.

**Client.** The note store of `App.tsx` is the class
`Workspace.Workspace`. It holds the ordered note list, the active note and
folder, and the search box. Its handlers create, update, delete and navigate.
The sidebar filter and the active-note lookup are functions over its fields.

The editor of `components/Editor.tsx` is the class `EditorDraft.Editor`. Its
fields are the draft that each handler replaces: title, body, attachments,
comments, share configuration, the comment box and the captured quote. A
handler that commits to the store returns the note it hands to `onUpdate`.
Pure functions specify the handlers:
- `Splice`, for the selection wrap that `insertText` performs;
- `Toggled`, for public sharing;
- `Invited` and `WithPermission`, for collaborators;
- `WithoutAttachment` and `Saved`.

The preview pane (module `EditorPreview`) runs the two global `replace`
passes as left-to-right scans:
- `@word` becomes a mention pill;
- `[[title]]` becomes a link to the first note with exactly that title, or a
  broken-link marker.

**Server.** The middleware in `backend/middleware/jwt.go` is the module
`Jwt`. It covers:
- the claims a token carries and the gate in front of every route;
- the in-memory registration-code store, the class `Jwt.CodeStore`;
- the digit-code generator, a method over an array.

The database is the class `Store.Database`: four tables in insertion order,
plus whether the events table has a `family_id` column. Pure functions on
`DbState` spell out the gorm semantics the handlers rely on:
- `Create` stamps zero timestamps and fills tag defaults. It fails on a
  taken key, soft-deleted rows included.
- `Save` stamps `UpdatedAt`.
- `Delete` only marks rows, and every query skips marked rows.
- An event inserted with id 0 takes the next `AUTOINCREMENT` id. gorm's
  SQLite driver declares an auto-increment integer key that way. Once the
  counter has passed 2^63 − 1, the largest rowid, such an insert fails.

The module `Sql` holds the SQLite `LIKE`, `BETWEEN` on the `datetime` date
column and `ORDER BY updated_at DESC`.

Each handler in `backend/handlers` (auth, family, notes, events, users)
is a function `…Outcome` from the database state and the decoded request to
the reply and the new state. A method runs the same handler against a
`Database` object, and its `ensures` ties the two together. A request body is
`Body.Parsed(value)` or `Body.Malformed(message)`; a reply is
`Response.Ok(status, value)` or `Response.Err(status, error)`.

Behaviour of the source that the model states:
- **The editor cannot show a new note.** `handleCreateNote` gives new notes
  a share object of the shape `{ isShared, permission }`. The start-up note
  of `App.tsx` (its `INITIAL_NOTE`, active from the first render) has
  `isShared`, `permission` and a `url`, and it also lacks `collaborators`. Once the editor's load
  effect installs it, every render reads `shareConfig.collaborators.length`
  for the top bar (components/Editor.tsx:331) and throws. The share popover's
  `.map` (components/Editor.tsx:409) would throw as well. Inviting and changing
  permissions throw on such a note too (`EditorDraft.CreatedNoteCannotShare`).
  The model leaves rendering out. Its draft handlers on such a note describe
  steps a user cannot reach.
- **The sidebar filter has no family partition.** It partitions by folder
  only.
- **`UpdateNote` ignores the client's `updatedAt`.** It copies the client's
  `updatedAt`, but gorm's `Save` overwrites it with the save time.
- **Note and user search is `LIKE`, not a substring test.** `%` and `_` are
  wildcards and ASCII case is ignored. The substring reading is proved only
  for queries without wildcards (`Sql.LikeContains`,
  `Sql.UnderscoreMatchesAnyCharacter`).
- **A note's id can collide.** A note created without an id gets
  `"n-" + title`, so two untitled notes collide. A soft-deleted note's id
  stays taken.
- **`GetEvents` fails without a `family_id` column.** The `Event` model
  declares no `FamilyID`, but the event query filters on `family_id`. On a
  table without that column the query fails and the handler answers 500.
  `DbState.eventsHaveFamilyColumn` records which case holds.
- **Any client can create a system event.** `CreateEvent` takes `isSystem`
  from the body, so any client can create an event that every user sees.
- **The page icon in link markup is mis-encoded.** The link and broken-link
  markup shows the UTF-8 bytes of the page emoji read back as Windows-1252.

Ids, clocks, `Math.random`, `crypto/rand` and UUIDs are parameters. The
model of bcrypt is `Bcrypt(secret)`, which matches exactly the password it
was made from. A signed token is represented by its claims, and the signature
check by a `decode` parameter.

## Model

| member | source | states |
|---|---|---|
| `ClientTypes.LegacyShare` | App.tsx:134 | the `{ isShared, permission }` object is not the declared share shape: no `collaborators`, not public, no link |
| `Workspace.NewNote` | App.tsx:127-137 | the new note has the given id, folder and time, an empty title and body, empty attachment and comment lists, no family, and the `{ isShared: false, permission: 'read' }` object, which is not the declared share shape |
| `Workspace.RemoveById` | App.tsx:148 | exactly the notes with another id remain, each as many times as it occurs in the list, in their order |
| `Workspace.ReplaceById` | App.tsx:143-145 | same length; each position holds the updated note where the id matches and the old note elsewhere |
| `Workspace.FirstIdInFolder` | App.tsx:151-152 | none exactly when no note is in the folder; otherwise the id of the first note in the folder |
| `Workspace.FilterNotes` | App.tsx:165-169 | a note is kept iff it is in the folder and the lowercased query occurs in its lowercased title or body; a kept note keeps all its copies; order is kept |
| `Workspace.EmptyQueryKeepsFolder` | App.tsx:165-169 | with an empty search box the filter is the folder partition alone |
| `Workspace.NoteById` | App.tsx:171 | the first note with the active id, none when no id is active or no note has it |
| `Workspace.UpdateThenFind` | App.tsx:143-145 | after updating a note whose id is in the list, looking that id up finds the updated note |
| `Workspace.UpdateKeepsIds` | App.tsx:143-145 | an update never changes which id sits at which position |
| `Workspace.UpdateUnknownId` | App.tsx:143-145 | an update for an id not in the list leaves the list unchanged |
| `Workspace.Workspace.constructor` | App.tsx:80-83 | the store starts with the given notes, active note and folder, and an empty search box |
| `Workspace.Workspace.FilteredNotes` | App.tsx:165-169 | the visible list is exactly the notes matching the active folder and the search box, every copy of each, in order |
| `Workspace.Workspace.ActiveNote` | App.tsx:171 | a found note is in the list with the active id; none found means no note has the active id |
| `Workspace.Workspace.CreateNote` | App.tsx:126-141 | the new empty note in the active folder is prepended and becomes the active note |
| `Workspace.Workspace.UpdateNote` | App.tsx:143-145 | notes replaced by id; length and ids per position kept; unknown id changes nothing |
| `Workspace.Workspace.DeleteNote` | App.tsx:147-154 | every note with the id is removed, order kept; deleting the active note activates the first note left in the folder (or none); otherwise the active note stays |
| `Workspace.Workspace.Navigate` | App.tsx:156-163 | a known id switches to its folder and activates it; an unknown id changes nothing |
| `Workspace.Workspace.SelectFolder` | App.tsx:285 | the clicked folder becomes active |
| `Workspace.Workspace.SelectNote` | App.tsx:302 | the clicked note becomes active |
| `Workspace.Workspace.SetSearchQuery` | App.tsx:265 | the search box holds the typed text |
| `EditorDraft.Splice` | components/Editor.tsx:172-185 | the body is the text before the selection, `before`, the selected text, `after`, and the text after the selection, each at its position |
| `EditorDraft.Toggled` | components/Editor.tsx:253-260 | public flips; a public object always has a link; an existing link is kept, a new one is the base URL plus the token; other fields unchanged; the declared shape is kept |
| `EditorDraft.OnOffOnKeepsUrl` | components/Editor.tsx:253-260 | switching public sharing on, off and on again shows the link of the first switch-on |
| `EditorDraft.NewCollaborator` | components/Editor.tsx:264-269 | the invitee gets read permission and a colour from the palette |
| `EditorDraft.Invited` | components/Editor.tsx:270 | fails exactly when there is no `collaborators` list; otherwise the old list plus the invitee at the end, other fields unchanged |
| `EditorDraft.Regranted` | components/Editor.tsx:427 | same length; entries of that user get the new permission, others unchanged |
| `EditorDraft.WithPermission` | components/Editor.tsx:420-431 | fails exactly without a `collaborators` list; 'remove' keeps exactly the other users' entries, every copy, in order; a permission choice regrants that user's entries only; other fields unchanged |
| `EditorDraft.CollaboratorEditsKeepLinkInvariant` | components/Editor.tsx:262-273 | inviting and permission edits keep "public implies a link" |
| `EditorDraft.WithoutAttachment` | components/Editor.tsx:543 | keeps exactly the attachments with another id, every copy, in order |
| `EditorDraft.DraftShare` | components/Editor.tsx:108-114 | the open note's share object as it is, whatever its shape; the well-formed default when no note is open or the note has none |
| `EditorDraft.CreatedNoteCannotShare` | components/Editor.tsx:101-116 | a note fresh from the store's create handler loads a share object without `collaborators`, whose length the editor reads on render; invite and permission edits fail on it |
| `EditorDraft.Saved` | components/Editor.tsx:147-158 | the committed note keeps id, folder, family and creation time and takes every draft field, the body or its override, and the save time |
| `EditorDraft.Editor.constructor` | components/Editor.tsx:43-59 | the draft starts empty with the default share object |
| `EditorDraft.Editor.Load` | components/Editor.tsx:101-116 | the draft takes the open note's fields (absent lists as empty, absent share as default), or resets when no note is open |
| `EditorDraft.Editor.EditTitle` | components/Editor.tsx:482 | the title field holds the typed text |
| `EditorDraft.Editor.EditContent` | components/Editor.tsx:562 | the body holds the typed text |
| `EditorDraft.Editor.EditNewComment` | components/Editor.tsx:664 | the comment box holds the typed text |
| `EditorDraft.Editor.InsertText` | components/Editor.tsx:172-185 | without a textarea nothing changes; otherwise the body is the splice and the restored selection covers exactly the old selected text |
| `EditorDraft.Editor.InsertMention` | components/Editor.tsx:242-250 | `@name ` is inserted before the selection |
| `EditorDraft.Editor.ApplyColor` | components/Editor.tsx:224-227 | the selection is wrapped in a span with that colour |
| `EditorDraft.Editor.Highlight` | components/Editor.tsx:697 | the selection is wrapped in the highlight span |
| `EditorDraft.Editor.CaptureQuote` | components/Editor.tsx:188-200 | the quote becomes the selected text |
| `EditorDraft.Editor.SubmitComment` | components/Editor.tsx:207-222 | a blank box changes nothing; otherwise one comment with the author and the quote is appended, box and quote are cleared, and the note is committed with the new list |
| `EditorDraft.Editor.TogglePublicShare` | components/Editor.tsx:253-260 | the share object is toggled and committed |
| `EditorDraft.Editor.InviteFromInput` | components/Editor.tsx:383-388 | an empty box invites nobody; otherwise it fails exactly without a `collaborators` list (nothing changes) or appends the invitee and commits |
| `EditorDraft.Editor.ChoosePermission` | components/Editor.tsx:420-431 | fails exactly without a `collaborators` list (nothing changes); otherwise the list becomes `WithPermission` of it and is committed |
| `EditorDraft.Editor.UploadFile` | components/Editor.tsx:282-300 | with a file, one attachment record is appended and committed; without one nothing changes |
| `EditorDraft.Editor.RemoveAttachment` | components/Editor.tsx:542-546 | the attachment list loses that id and is committed |
| `EditorDraft.Editor.Save` | components/Editor.tsx:147-158 | with an open note the commit is `Saved` of the draft; without one nothing is committed |
| `EditorPreview.WordRun` | components/Editor.tsx:602 | the greedy `\w+` run: all word characters, followed by a non-word character or the end |
| `EditorPreview.Mentions` | components/Editor.tsx:602 | the mention pass only adds markup: the result is never shorter than the text |
| `EditorPreview.LoneAtKept` | components/Editor.tsx:602 | an '@' not followed by a word character is kept as it is |
| `EditorPreview.MentionsKeepBrackets` | components/Editor.tsx:602-603 | the mention pass neither adds nor removes '[' or ']', so it makes no wiki link and breaks none |
| `EditorPreview.PillHasNoBracket` | components/Editor.tsx:602 | a mention pill holds no '[' and no ']' |
| `EditorPreview.MentionsPlainPrefix` | components/Editor.tsx:602 | text before any '@' passes the mention pass unchanged |
| `EditorPreview.MentionsWithoutAt` | components/Editor.tsx:602 | text without '@' is unchanged by the mention pass |
| `EditorPreview.MentionOfWord` | components/Editor.tsx:602 | `@word` followed by a non-word character becomes one pill holding the word |
| `EditorPreview.WordRunOfWord` | components/Editor.tsx:602 | a word followed by a non-word character is taken whole |
| `EditorPreview.CloseAt` | components/Editor.tsx:603 | the lazy match closes at the nearest `]]`, never across a line terminator; when it finds none, every later `]]` has a line terminator before it |
| `EditorPreview.Resolve` | components/Editor.tsx:605 | the first note with exactly that title; none iff no note has it |
| `EditorPreview.LinkFor` | components/Editor.tsx:604-610 | a link (to the first note with that title) iff some note has the title, otherwise the broken marker |
| `EditorPreview.LinkPass` | components/Editor.tsx:603-611 | every character is kept or consumed by a link: no more pieces than characters |
| `EditorPreview.UnclosedLinkIsText` | components/Editor.tsx:603 | an opening `[[` with no `]]` before the next line break stays text, all of it |
| `EditorPreview.LoneBracketIsText` | components/Editor.tsx:603 | a single '[' starts no link |
| `EditorPreview.UnclosedHasNoClose` | components/Editor.tsx:603 | after `[[`, a text whose every `]]` follows a line break gives no closing position |
| `EditorPreview.LinkOpen` | components/Editor.tsx:607 | the anchor's opening tag carries the note id right after the `window.navigate('` call |
| `EditorPreview.Labelled` | components/Editor.tsx:607-609 | the element is the opening tag, the page icon, a space, the link text and the closing tag, so it ends with the space, the text and the closing tag |
| `EditorPreview.PieceHtml` | components/Editor.tsx:603-611 | a plain character renders as itself; a link as the anchor whose click navigates to the piece's note id, holding the page icon, a space and the title; a broken marker as the dashed span with the same content; never empty |
| `EditorPreview.Html` | components/Editor.tsx:603-611 | every piece contributes at least one character |
| `EditorPreview.HtmlAppend` | components/Editor.tsx:603-611 | the markup of two piece lists one after the other is their markups one after the other |
| `EditorPreview.PreviewPieces` | components/Editor.tsx:601-611 | mention pass first, then link pass: a body without '[' yields only plain characters, mentions included |
| `EditorPreview.Preview` | components/Editor.tsx:601-611 | a body without '[' previews as the mention pass's output |
| `EditorPreview.LinkPassPlainPrefix` | components/Editor.tsx:603-611 | text before any '[' passes the link pass as plain characters |
| `EditorPreview.NoBracketNoLinks` | components/Editor.tsx:603-611 | text without '[' yields no links |
| `EditorPreview.PlainsRenderAsText` | components/Editor.tsx:601-611 | plain characters render as themselves |
| `EditorPreview.PlainTextPreview` | components/Editor.tsx:601-611 | text with neither '@' nor '[' previews as itself |
| `EditorPreview.CloseAfterTitle` | components/Editor.tsx:603 | in `[[t]]…` for a title without ']' or line breaks the match closes right after `t` |
| `EditorPreview.LinkOfTitle` | components/Editor.tsx:603-610 | `[[t]]` becomes exactly one link piece for `t`, then the rest is scanned |
| `EditorPreview.TextThenLink` | components/Editor.tsx:601-611 | plain text followed by `[[t]]` previews as that text and the link for `t` |
| `EditorPreview.TextThenLinkHtml` | components/Editor.tsx:601-611 | text then `[[t]]` renders as the text and then the anchor that navigates to the id of the first note titled `t`, with the icon and `t`; or as the text and the broken-link span when no note has that title |
| `EditorPreview.TextThenPieceHtml` | components/Editor.tsx:603-611 | plain text then one piece renders as the text then that piece's HTML |
| `EditorPreview.TextThenLinkMentions` | components/Editor.tsx:602 | text and link markup without '@' pass the mention pass unchanged |
| `EditorPreview.PillIsPlainTitle` | components/Editor.tsx:602 | a mention pill contains no ']' and no line terminator |
| `EditorPreview.MentionInsideLink` | components/Editor.tsx:601-611 | `[[@word]]` looks up a note titled with the pill's markup, not with "@word" |
| `EditorPreview.MentionInMarkup` | components/Editor.tsx:602 | inside `[[…]]` the mention pass still turns `@word` into a pill |
| `EditorPreview.MentionThenText` | components/Editor.tsx:602 | `@word` followed by text without '@' gives the pill followed by that text |
| `Sql.Like` | backend/handlers/notes.go:29 | a pattern with no '%' only matches texts of its own length, since '_' and every other character each take exactly one character |
| `Sql.LikeLiteral` | backend/handlers/notes.go:29 | a pattern with no '%' or '_' matches exactly the texts that equal it up to ASCII case |
| `Sql.Between` | backend/handlers/events.go:25 | the `datetime` column has NUMERIC affinity, so a bound that reads as a number is below every stored date: a numeric end admits nothing and a numeric start admits every date up to the end; with text bounds an out-of-order range holds nothing and both ends of an ordered range are in it |
| `Sql.YearEndHoldsNothing` | backend/handlers/events.go:25 | `end=2025` reads as a number, so the range from 2024-01-01 to 2025 holds no stored date |
| `Sql.TextLeTransitive` | backend/handlers/events.go:25 | SQLite's text order is transitive |
| `Sql.LikeContains` | backend/handlers/notes.go:29 | for a query without '%' or '_', `LIKE '%q%'` holds iff q occurs in the text ignoring ASCII case |
| `Sql.UnderscoreMatchesAnyCharacter` | backend/handlers/users.go:21 | with a wildcard in the query LIKE is no substring test |
| `Sql.BetweenPoint` | backend/handlers/events.go:25 | a range with equal text ends holds exactly the stored date text equal to them; a numeric one holds nothing |
| `Sql.SortNewestFirst` | backend/handlers/notes.go:32 | the same rows (as a multiset), with `updatedAt` never increasing |
| `Store.Stamp` | backend/models/core.go:15-16 | a zero timestamp becomes the insert time, any other is kept |
| `Store.UserById` | backend/handlers/family.go:28 | a found user has the id; none iff no row has it |
| `Store.UserByUsername` | backend/handlers/auth.go:27 | a found user has the name; none iff no row has it |
| `Store.MembersOf` | backend/handlers/family.go:155 | exactly the users holding the family id, every copy of a row, in table order |
| `Store.LiveNote` | backend/handlers/notes.go:68 | a found note is live with that id and owner; none iff there is no such row |
| `Store.InsertUser` | backend/handlers/auth.go:113 | fails iff the id or the username is taken; otherwise the stamped row is appended |
| `Store.SetFamily` | backend/handlers/family.go:43 | the row with the id gets the family and the save time; every other row unchanged |
| `Store.InsertFolder` | backend/handlers/family.go:58 | fails iff the folder id is taken; otherwise appended |
| `Store.StoredNote` | backend/models/core.go:19-34 | timestamps stamped and an empty public permission defaults to "read"; nothing else changes |
| `Store.InsertNote` | backend/handlers/notes.go:55 | fails iff any row, soft-deleted or not, has the id; otherwise the stored row is appended |
| `Store.SaveNote` | backend/handlers/notes.go:88 | the live row with the id becomes the note stamped with the save time; others unchanged |
| `Store.SoftDeleteNotes` | backend/handlers/notes.go:97 | the caller's live rows with the id are marked deleted now; others unchanged |
| `Store.NextEventId` | backend/models/event.go:25 | the `AUTOINCREMENT` id is positive, above every stored id up to the largest rowid, and at most one past that rowid |
| `Store.StoredEvent` | backend/models/event.go:24-49 | id assigned when zero, timestamps stamped, empty type "solar" and recurrence "none"; nothing else changes |
| `Store.InsertEvent` | backend/handlers/events.go:47 | fails iff a non-zero id is taken or, for id zero, the counter has passed the largest rowid; the appended row's id is new and it has no family |
| `Store.SoftDeleteEvents` | backend/handlers/events.go:60 | the owner's live events with the id are marked deleted; others unchanged |
| `Store.SetFamilyKeepsOthers` | backend/handlers/family.go:43 | changing one user's family leaves every other user's lookup unchanged |
| `Store.SetFamilyMakesMember` | backend/handlers/family.go:94 | giving an existing user a family makes that family findable |
| `Store.UserWritesKeepKeys` | backend/models/core.go:9-17 | inserts and family changes keep user ids and usernames unique |
| `Store.NoteWritesKeepKeys` | backend/models/core.go:19-34 | inserts, saves and deletes keep note ids unique |
| `Store.FolderInsertKeepsKeys` | backend/models/core.go:36-44 | inserts keep folder ids unique |
| `Store.EventWritesKeepKeys` | backend/models/event.go:24-49 | inserts, autoincrement ids included, and deletes keep event ids unique |
| `Store.Database.constructor` | backend/db/db.go:1-38 | the database holds the given tables |
| `Store.Database.CreateUser` | backend/handlers/auth.go:113 | reports success iff `InsertUser` succeeds; only the users table changes, to its result |
| `Store.Database.SaveFamily` | backend/handlers/family.go:43 | only the users table changes, to `SetFamily` of it |
| `Store.Database.CreateFolder` | backend/handlers/family.go:58 | reports success iff `InsertFolder` succeeds; only the folders table changes |
| `Store.Database.CreateNote` | backend/handlers/notes.go:55 | reports success iff `InsertNote` succeeds; only the notes table changes |
| `Store.Database.Save` | backend/handlers/notes.go:88 | only the notes table changes, to `SaveNote` of it |
| `Store.Database.DeleteNotes` | backend/handlers/notes.go:97 | only the notes table changes, to `SoftDeleteNotes` of it |
| `Store.Database.CreateEvent` | backend/handlers/events.go:47 | reports success iff `InsertEvent` succeeds; only the events table changes |
| `Store.Database.DeleteEvents` | backend/handlers/events.go:60 | only the events table changes, to `SoftDeleteEvents` of it |
| `Jwt.WholeSeconds` | backend/middleware/jwt.go:35-36 | the whole second at or before the instant |
| `Jwt.IssueClaims` | backend/middleware/jwt.go:30-43 | issuer "gonote", issued within the second before now, expiring seven days after issue |
| `Jwt.ParseToken` | backend/middleware/jwt.go:46-60 | claims iff the signature checks and now is before the expiry |
| `Jwt.SplitFirstSpace` | backend/middleware/jwt.go:81 | no space gives one part; otherwise the text before the first space and the rest |
| `Jwt.Gate` | backend/middleware/jwt.go:63-101 | auth paths pass without identity; no header 401 "请先登录"; no "Bearer " prefix 401 "Token 格式错误"; a token that does not parse 401 "Token 无效或已过期"; a protected request passes iff it has the prefix and its token parses, carrying that token's user id and name; every refusal is 401 |
| `Jwt.BearerSplit` | backend/middleware/jwt.go:81-82 | the split gives "Bearer" and a second part iff the header starts with "Bearer ", and the second part is the token |
| `Jwt.IssuedTokenLifetime` | backend/middleware/jwt.go:20-99 | an issued token passes the gate as its user before issue plus seven days and is refused from then on |
| `Jwt.Generated` | backend/middleware/jwt.go:119-142 | the username's entry is replaced by the code, password and expiry ten minutes on; other entries unchanged |
| `Jwt.Verified` | backend/middleware/jwt.go:145-172 | success iff an entry exists, has not expired and the code matches; the password on success, "" otherwise; the entry is removed on success or expiry and kept on a wrong code |
| `Jwt.GenerateThenVerify` | backend/middleware/jwt.go:119-172 | a code confirmed within ten minutes (inclusive) succeeds with the requested password |
| `Jwt.CodeIsSingleUse` | backend/middleware/jwt.go:166-171 | a confirmed code fails the second time |
| `Jwt.WrongCodeAllowsRetry` | backend/middleware/jwt.go:162-164 | a wrong code leaves the entry, so the right code still works before expiry |
| `Jwt.NewestRequestWins` | backend/middleware/jwt.go:123-128 | after two requests only the newer code works, with the newer password |
| `Jwt.DigitOf` | backend/middleware/jwt.go:180 | every byte becomes a decimal digit |
| `Jwt.AsText` | backend/middleware/jwt.go:182 | one character per byte, with the byte's value |
| `Jwt.DigitCode` | backend/middleware/jwt.go:175-183 | one digit per byte, each the byte's digit |
| `Jwt.GenerateRandomCode` | backend/middleware/jwt.go:175-183 | the in-place loop yields `length` characters, all digits, equal to `DigitCode` of the random bytes |
| `Jwt.CodeStore.constructor` | backend/middleware/jwt.go:106-109 | the store starts empty |
| `Jwt.CodeStore.Generate` | backend/middleware/jwt.go:119-142 | returns a six-digit code and stores it as `Generated` |
| `Jwt.CodeStore.Verify` | backend/middleware/jwt.go:145-172 | answer and new store are those of `Verified` |
| `AuthHandlers.Login` | backend/handlers/auth.go:14-49 | empty or malformed body 400; success only for a user with that name and password, with a token for that user; with unique usernames, success iff such a user exists, otherwise 401 "用户名或密码错误" |
| `AuthHandlers.LoginHidesWhichPartIsWrong` | backend/handlers/auth.go:27-39 | an unknown username and a wrong password get the same reply |
| `AuthHandlers.AcceptableForm` | backend/handlers/auth.go:54-55 | the length rules already exclude the empty name and password that `required` refuses |
| `AuthHandlers.RequestOutcome` | backend/handlers/auth.go:52-77 | a form outside the length rules 400; a taken name 409; success iff both pass, storing a fresh six-digit code for the name |
| `AuthHandlers.NewAccount` | backend/handlers/auth.go:106-111 | id "u-" plus name, hashed password, blue avatar, no family |
| `AuthHandlers.VerifyOutcome` | backend/handlers/auth.go:80-130 | missing fields 400; the code is verified and spent before the insert; wrong or expired code 400; success iff the code verifies and id and name are free, appending the account with the requested password and logging it in; insert failure 500 |
| `AuthHandlers.RequestThenVerify` | backend/handlers/auth.go:52-130 | request then confirm within ten minutes creates exactly that account with the request's password and spends the code |
| `AuthHandlers.VerifyUsesRequestedPassword` | backend/handlers/auth.go:92-109 | the account's password hash is that of the password stored with the request |
| `AuthHandlers.Register` | backend/handlers/auth.go:133-138 | the legacy endpoint always answers 400 |
| `AuthHandlers.RegisterRequest` | backend/handlers/auth.go:52-77 | reply and code store are those of `RequestOutcome` |
| `AuthHandlers.RegisterVerify` | backend/handlers/auth.go:80-130 | reply, users and code store are those of `VerifyOutcome`; other tables unchanged |
| `FamilyHandlers.FamilyIdFrom` | backend/handlers/family.go:39 | "family-" and the first eight characters of the UUID |
| `FamilyHandlers.FamilyFolder` | backend/handlers/family.go:49-57 | the shared folder's id, owner, family, name, icon and kind |
| `FamilyHandlers.CreateOutcome` | backend/handlers/family.go:14-65 | malformed 400, unknown caller 404, already in a family 409; success iff neither, giving the caller the new family and adding the folder (a folder failure ignored) |
| `FamilyHandlers.JoinOutcome` | backend/handlers/family.go:68-110 | missing id 400, unknown caller 404, already in a family 409, no member holds the id 404; success iff none of these, setting the caller's family; failures change nothing |
| `FamilyHandlers.LeaveOutcome` | backend/handlers/family.go:113-134 | unknown caller 404, no family 400; success iff in a family, clearing it |
| `FamilyHandlers.GetFamilyMembers` | backend/handlers/family.go:137-161 | 404 iff unknown caller; no family gives an empty list; otherwise the member list is `MembersOf` the caller's family: exactly the users holding its id, every copy, in table order, the caller included |
| `FamilyHandlers.FamilyNote` | backend/handlers/family.go:178 | the query keeps exactly the live notes holding the family id |
| `FamilyHandlers.GetFamilyNotes` | backend/handlers/family.go:164-182 | 404 iff unknown caller; no family gives none; otherwise exactly the live notes of the family, whoever wrote them, newest first |
| `FamilyHandlers.EmptyFamilyCannotBeJoined` | backend/handlers/family.go:94-97 | once the last member leaves, the family id is held by no one and every join with it fails, changing nothing |
| `FamilyHandlers.JoinAfterCreate` | backend/handlers/family.go:14-110 | a user outside any family can join with the id just returned to a founder |
| `FamilyHandlers.CreateFamily` | backend/handlers/family.go:14-65 | reply and new state are those of `CreateOutcome` |
| `FamilyHandlers.JoinFamily` | backend/handlers/family.go:68-110 | reply and new state are those of `JoinOutcome` |
| `FamilyHandlers.LeaveFamily` | backend/handlers/family.go:113-134 | reply and new state are those of `LeaveOutcome` |
| `NoteHandlers.NotesFor` | backend/handlers/notes.go:13-38 | exactly the caller's live personal notes in the folder and matching the search when given, newest first |
| `NoteHandlers.GetNotes` | backend/handlers/notes.go:13-38 | the query narrowed step by step answers 200 with `NotesFor` |
| `NoteHandlers.SearchFindsSubstrings` | backend/handlers/notes.go:28-30 | for a search without wildcards, a note is listed iff the text occurs in its title or body ignoring ASCII case |
| `NoteHandlers.NoFiltersListAllOwnNotes` | backend/handlers/notes.go:22 | with no folder and no search, all the caller's live personal notes are listed |
| `NoteHandlers.Incoming` | backend/handlers/notes.go:48-53 | owner is the caller; id "n-" plus title when none was sent; nothing else changes |
| `NoteHandlers.CreateOutcome` | backend/handlers/notes.go:41-60 | malformed 400 with the decoder's message; success iff the id is free in every row, appending the stored note owned by the caller; otherwise 500 and nothing changes |
| `NoteHandlers.UntitledNotesCollide` | backend/handlers/notes.go:50-56 | a second note without id and with the same title is refused, whoever sends it |
| `NoteHandlers.Updated` | backend/handlers/notes.go:80-86 | the seven copied fields come from the body; id, owner, creation and deletion time are kept |
| `NoteHandlers.UpdateOutcome` | backend/handlers/notes.go:63-90 | not the caller's live note 404 (even for a malformed body), then malformed 400; success iff found and parsed, saving the copied fields with the save time in place of the sent `updatedAt`; other rows unchanged |
| `NoteHandlers.UpdateSharesWithAnyFamily` | backend/handlers/notes.go:86 | an update naming any family moves the note out of the caller's list and into that family's list |
| `NoteHandlers.DeleteOutcome` | backend/handlers/notes.go:93-102 | always 200 "Note deleted"; the caller's rows with the id are marked deleted, others unchanged; the note is no longer found |
| `NoteHandlers.DeletedIdStaysTaken` | backend/handlers/notes.go:55-97 | after deleting, creating a note with that id fails with 500 |
| `NoteHandlers.CreateNote` | backend/handlers/notes.go:41-60 | reply and new state are those of `CreateOutcome` |
| `NoteHandlers.UpdateNote` | backend/handlers/notes.go:63-90 | reply and new state are those of `UpdateOutcome` |
| `NoteHandlers.DeleteNote` | backend/handlers/notes.go:93-102 | reply and new state are those of `DeleteOutcome` |
| `EventHandlers.EventsOf` | backend/handlers/events.go:28 | the events of the rows, in order |
| `EventHandlers.EventsFor` | backend/handlers/events.go:14-34 | 500 iff the table lacks `family_id`; otherwise 200 with exactly the live events that are the caller's personal ones or system events, within the range when both ends are given; one entry per shown row, in table order (no ORDER BY) |
| `EventHandlers.GetEvents` | backend/handlers/events.go:14-34 | the query narrowed step by step answers `EventsFor` |
| `EventHandlers.OneDayRange` | backend/handlers/events.go:24-25 | a range with equal ends shows exactly the visible events whose stored date text equals the bound, and none for a bound that reads as a number |
| `EventHandlers.DateOnlyBoundShowsNothing` | backend/handlers/events.go:24-25 | a bound whose length differs from every stored date, such as a date without the time and offset the stored text carries, shows no event |
| `EventHandlers.Incoming` | backend/handlers/events.go:45 | owner is the caller; every other field as sent |
| `EventHandlers.CreateOutcome` | backend/handlers/events.go:37-53 | malformed 400 with the decoder's message; success iff the id is free, or is zero while the counter is within the largest rowid; the stored event is appended, owned by the caller with `isSystem` as sent; otherwise 500 and nothing changes |
| `EventHandlers.ClientSystemEventShownToAll` | backend/handlers/events.go:23-47 | an event any caller creates with `isSystem` set is shown to every user |
| `EventHandlers.DeleteOutcome` | backend/handlers/events.go:56-66 | always 200 "Event deleted"; each live row of the caller's with the id gets the deletion time `now` and is otherwise unchanged; already deleted rows and all other rows unchanged |
| `EventHandlers.DeleteSparesOthers` | backend/handlers/events.go:60 | another user's row, system events included, survives a delete unchanged |
| `EventHandlers.CreateEvent` | backend/handlers/events.go:37-53 | reply and new state are those of `CreateOutcome` |
| `EventHandlers.DeleteEvent` | backend/handlers/events.go:56-66 | reply and new state are those of `DeleteOutcome` |
| `UserHandlers.Hit` | backend/handlers/users.go:27-33 | a hit carries the user's id, name and colour only |
| `UserHandlers.HitsOf` | backend/handlers/users.go:26-34 | one hit per user, in order |
| `UserHandlers.Search` | backend/handlers/users.go:12-37 | empty query gives an empty array; otherwise an array iff some username is LIKE the query, holding the first five matches in table order, else null |
| `UserHandlers.SearchUsers` | backend/handlers/users.go:12-37 | the loop appending to a nil slice answers `Search` |
| `UserHandlers.PlainQueryFindsSubstrings` | backend/handlers/users.go:21 | for a query without wildcards every hit's username contains the query, ignoring ASCII case |

## Left out

- Scroll synchronisation, `formatBytes`, the AI polish call, menus and popovers, view modes and all JSX rendering in `components/Editor.tsx`: presentation only.
- The mention dropdown's placement and the `@` key handler that opens it: layout only. Choosing a name is `InsertMention`.
- `services/api.ts`, `frontend/services/aiService.ts`, the login form and `localStorage` in `App.tsx`: network and browser storage. The client store is modelled without the server round trip.
- Markdown rendering of the preview: an external library. The model stops at the text handed to it.
- The editor's render crash on a share object without `collaborators` (components/Editor.tsx:331 and 409): rendering is not modelled. `EditorDraft.CreatedNoteCannotShare` states the missing list. The `Editor` handlers remain callable on such a note, although in the application they are unreachable once it is open.
- The JWT signature and its HMAC secret: `decode` stands for the library's check. `GenerateToken`'s signing failure is left out too, and with it the replies 500 "登录失败，请重试" and "注册成功，但登录失败".
- bcrypt's internals, including its 72-byte limit and the 500 it causes at backend/handlers/auth.go:99-102: `Bcrypt` matches exactly its own password.
- `codeMutex`: concurrent requests are not modelled. Each handler runs alone.
- The console log of a new code: output only.
- Database errors other than key conflicts and the exhausted event counter never occur in the model. This covers:
  - the 500 replies "Failed to fetch notes", "Failed to delete note", "Failed to delete event" and "Search failed";
  - "Failed to fetch events", except when the table lacks `family_id`;
  - the failed `Save` of the caller's row in the family handlers: "创建家庭失败" (backend/handlers/family.go:43-46), "加入家庭失败" (backend/handlers/family.go:101-104) and "退出家庭失败" (backend/handlers/family.go:128-131);
  - a failure of the unchecked `Save` in `UpdateNote` (backend/handlers/notes.go:88), after which the handler would still answer 200 with the note.
- `backend/handlers/extra.go`, `backend/main.go`, `backend/db/db.go` (connection and migrations) and the models in `backend/models/extra.go` and `backend/models/family.go`: outside the modelled core.
- Case folding outside ASCII: SQLite's LIKE folds only ASCII. `toLowerCase` on the client is modelled with ASCII folding too.
- The text form of event dates and of timestamps: a stored date is the text the SQLite driver writes for a `time.Time`, which never reads as a number, and timestamps are integers.
- `Sql.Between`: a bound that reads as a number is compared as below every stored date, which is what SQLite does with text dates. The numeric value itself and comparisons between two numbers are not modelled, since no stored date is a number.
- `DeleteEvent`'s id is taken as a number. A path id that is not a number is left out.
- `Store.InsertEvent`: an explicit event id of 2^63 or more is kept as sent. `database/sql` converts the Go `uint` to a 64-bit signed integer by wrapping, so SQLite stores a negative rowid, and later reads fail to scan it back into `uint`. The model keys the row by the id as sent. Collisions between such ids match those of their wrapped values. The failing reads are not modelled.
- Rows with equal `updatedAt` keep table order in `Sql.SortNewestFirst`. SQLite leaves their order unspecified.
- Rows are in insertion order, which for events is not necessarily id order.
- Collisions of the first eight characters of two UUIDs: the family id comes as a parameter.
- JSON encoding: the `json:"-"` hiding of the password hash in replies, and the extra `message` field of the legacy `Register` reply.
- `Workspace.NewNote`: the source reads `Date.now()` three times, for the id, `createdAt` and `updatedAt` (App.tsx:128, 135 and 136). The model takes the id as a parameter and uses one instant for both timestamps.
- Clock readings in the handlers: each handler is modelled with one instant `now`, where the source reads the clock several times. Examples are gorm's stamps in `Save` and `Create` against the folder's `CreatedAt: time.Now()` in `CreateFamily` (backend/handlers/family.go:56), and, in `RegisterVerify`, the code's expiry check, the account's timestamps and the token's issue time.
- `EditorDraft.Splice`: positions count characters (code points), while the textarea's `selectionStart` and `selectionEnd` (components/Editor.tsx:172-185) count UTF-16 code units. The two differ in text before the selection that holds characters outside the Basic Multilingual Plane, such as emoji.
- `Jwt.IssueClaims`: the source reads the clock twice, for `ExpiresAt` and for `IssuedAt`. The model uses one instant for both.
- `UserHandlers.PlainQueryFindsSubstrings`: "the username contains the query" is stated only for queries without '%' or '_'. With wildcards LIKE is no substring test (`Sql.UnderscoreMatchesAnyCharacter`).
- `NoteHandlers.SearchFindsSubstrings`: stated only for searches without '%' or '_', for the same reason.
- `AuthHandlers.Login`: "succeeds iff the user exists with that password" is stated under unique usernames, which the `uniqueIndex` on `Username` guarantees in the database.
