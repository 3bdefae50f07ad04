# SyncSyntax messaging and social store, modelled in Dafny

SyncSyntax is an ASP.NET Core blogging site for content creators. Users
sign up, write and publish posts, follow each other and like or save posts.
They exchange direct messages through a real-time hub and comment on posts.
Administrators maintain categories and watch a dashboard. A background job
publishes scheduled posts, and an archive job moves year-old messages out of
the live table.

This project models the database side of that behaviour. `Store.Db` is the
application's database context: one sequence per table, the identity
counter the database hands out, and an ordered log of effects. The effects
are commits (`SaveChanges`), real-time events sent to users or groups,
files written or deleted, and sign-ins. Each controller action or hub method
that changes the store is a method on `Db`. Its `modifies` clause names the
tables it may touch, and its `ensures` clause gives the new tables and the
new log as functions of the old ones. Each query is a pure function. Lemmas
state what those functions promise: round trips, idempotence,
partitions, counts that stay in step, and badges that move by exactly one.

Modules follow the source files:

- `Records`, `Messages`, `Posts`, `Store`: the entities, their defaults and annotations.
- `Conversations`, `CreatorMessages`, `AdminMessages`: the inbox, threads, read marking, deletion, editing, pins and reaction tallies.
- `ChatHub`, `ChatClient`: sending a message, and the chat page script (menus, bulk actions, export, and the escaping of the pinned banner; message content itself is inserted unescaped).
- `Archive`, `Scheduler`: the two background jobs.
- `CreatorPosts`, `Likes`, `FollowFeed`, `NotificationPage`, `CommentHub`: the content creators' post, following, notification and comment features.
- `PostPages`, `Categories`, `Dashboard`: the public post controller and the admin area.
- `Auth`, `SignUpForm`, `MinAge`: accounts and form validation.
- `Common`, `Text`, `Calendar`: LINQ operators, .NET string operations and date arithmetic.

Time is whole seconds since 0001-01-01. A day is whole days since that date.

## Model

| member | source | states |
|---|---|---|
| Records.NewNotification | SyncSyntax/Models/Notification.cs:29-32 | a new notification is unread, created now, tied to no post, and carries the given user and text |
| Records.FindUser | SyncSyntax/Areas/ContentCreator/Controllers/PostController.cs:58 | the user found has the id asked for; none is found exactly when no user has that id |
| Records.FindUserFirst | SyncSyntax/Areas/ContentCreator/Controllers/PostController.cs:58 | the lookup returns the first row carrying the id |
| Records.UnreadNotificationCount | SyncSyntax/Areas/ContentCreator/Controllers/PostController.cs:224-226 | the badge is at most the table size, and zero exactly when the viewer has no unread notification |
| Messages.NewMessage | SyncSyntax/Models/Message.cs:8-24 | a new message is unread, never read, has no audio, is not pinned and is sent at the current instant |
| Messages.NewMessageAnnotations | SyncSyntax/Models/Message.cs:8-15 | a new message meets its annotations iff sender, receiver and content are all non-blank |
| Posts.ValidationErrors | SyncSyntax/Models/Post.cs:14-24 | there are no errors iff title, content and description are present and within 200, 2500 and 5000 characters |
| Posts.NewPost | SyncSyntax/Models/Post.cs:26-43 | a new post has no views, no likes, is unpublished, never updated, and dated now |
| Posts.PostIndex | SyncSyntax/Areas/ContentCreator/Controllers/PostController.cs:43 | the index found is the first post with that id; none exactly when no post has it |
| Calendar.DayOfWeek | SyncSyntax/Areas/Admin/Controllers/HomeController.cs:43 | the weekday number is always between 0 and 6 |
| Calendar.WeekdayLabel | SyncSyntax/Areas/Admin/Controllers/HomeController.cs:43 | every label is one of the seven invariant-culture abbreviations |
| Calendar.SameLabelIffWeeksApart | SyncSyntax/Areas/Admin/Controllers/HomeController.cs:43 | two days have the same label iff they are a whole number of weeks apart |
| Calendar.DaysInMonth | SyncSyntax/Validation/MinAgeAttribute.cs:25-26 | a month has 28 to 31 days, and February has 29 exactly in leap years |
| Calendar.AddYears | SyncSyntax/Validation/MinAgeAttribute.cs:28 | the result is a valid date with the same month and day, except 29 February, which becomes 28 February in a common year |
| Conversations.VisibleTo | SyncSyntax/Areas/ContentCreator/Controllers/MessagesController.cs:33-35 | the visible messages are those the viewer sent or received and has not deleted for themselves |
| Conversations.LatestIndex | SyncSyntax/Areas/ContentCreator/Controllers/MessagesController.cs:37 | the chosen message has the latest time of its group, and no earlier row ties with it |
| Conversations.LatestWith | SyncSyntax/Areas/ContentCreator/Controllers/MessagesController.cs:36-37 | the entry for a counterpart is a visible message with that counterpart, and none later exists |
| Conversations.LatestPerCounterpart | SyncSyntax/Areas/ContentCreator/Controllers/MessagesController.cs:36-37 | one entry per counterpart; each is the latest message of its group; every visible message's counterpart has an entry |
| Conversations.Inbox | SyncSyntax/Areas/ContentCreator/Controllers/MessagesController.cs:33-38 | the inbox lists each counterpart once with its latest visible message, and covers every counterpart |
| Conversations.InboxHidesDeleted | SyncSyntax/Areas/ContentCreator/Controllers/MessagesController.cs:35 | a message the viewer deleted for themselves is never an inbox entry |
| Conversations.InboxCounterpartsShrink | SyncSyntax/Areas/ContentCreator/Controllers/MessagesController.cs:33-38 | after one more deletion, every entry's counterpart was already listed, with a message at least as recent |
| Conversations.InboxCoversVisible | SyncSyntax/Areas/ContentCreator/Controllers/MessagesController.cs:33-38 | every message the viewer can see has an inbox entry for its counterpart that is at least as recent |
| Conversations.DeletedForGrows | SyncSyntax/Areas/ContentCreator/Controllers/MessagesController.cs:35 | a deletion stays in force when more deletions are added |
| Conversations.Conversation | SyncSyntax/Areas/ContentCreator/Controllers/MessagesController.cs:91-93 | the conversation holds exactly the table's messages between the two users, in either direction |
| Conversations.Thread | SyncSyntax/Areas/ContentCreator/Controllers/MessagesController.cs:91-95 | the thread is sorted by sent time and is a permutation of the conversation |
| Conversations.ThreadMultiplicity | SyncSyntax/Areas/ContentCreator/Controllers/MessagesController.cs:91-95 | every message of the conversation appears in the thread as often as in the table |
| Conversations.ThreadSymmetric | SyncSyntax/Areas/ContentCreator/Controllers/MessagesController.cs:91-93 | both parties see the same thread |
| Conversations.MarkedRead | SyncSyntax/Areas/ContentCreator/Controllers/MessagesController.cs:78-86 | exactly the unread messages from the sender to the reader become read at now; all other fields and rows are kept |
| Conversations.MarkedReadIdempotent | SyncSyntax/Areas/ContentCreator/Controllers/MessagesController.cs:78-86 | marking a second time changes nothing |
| Conversations.NothingUnreadLeavesTableAlone | SyncSyntax/Areas/ContentCreator/Controllers/MessagesController.cs:88-89 | with nothing unread to mark, the table is unchanged |
| Conversations.UnreadMessageCount | SyncSyntax/Areas/ContentCreator/Controllers/FollowingController.cs:98-102 | the message badge is zero exactly when nothing addressed to the user is unread |
| Conversations.MarkedReadLowersBadge | SyncSyntax/Areas/ContentCreator/Controllers/MessagesController.cs:78-86 | opening a chat lowers the reader's badge by exactly the number of unread messages from the other party |
| Conversations.UsersAmong | SyncSyntax/Areas/ContentCreator/Controllers/MessagesController.cs:54-56 | the users kept are exactly those whose id is in the list |
| Conversations.OtherThan | SyncSyntax/Areas/ContentCreator/Controllers/MessagesController.cs:40-42 | the available users are everyone except the viewer |
| Conversations.CounterpartIds | SyncSyntax/Areas/ContentCreator/Controllers/MessagesController.cs:49-52 | the counterpart ids are duplicate-free and are exactly the counterparts of the inbox entries |
| Conversations.InboxEmptyIffNothingVisible | SyncSyntax/Areas/ContentCreator/Controllers/MessagesController.cs:44-47 | the inbox is empty iff no message is visible to the viewer |
| Conversations.InboxPageOf | SyncSyntax/Areas/ContentCreator/Controllers/MessagesController.cs:29-67 | the page shows the inbox, the users met in it, everyone else as available, and the no-chats notice iff nothing is visible |
| Conversations.UserIndex | SyncSyntax/Areas/ContentCreator/Controllers/MessagesController.cs:71 | the index found is a user with that id; none exactly when no such user exists |
| Conversations.TouchLastSeen | SyncSyntax/Areas/ContentCreator/Controllers/MessagesController.cs:73-75 | the viewer's row gets LastSeen = now and every other row stays as it was; an unknown id changes nothing |
| Conversations.TouchedViewerIsSeen | SyncSyntax/Areas/ContentCreator/Controllers/MessagesController.cs:73-75 | after the stamp, looking the viewer up by id finds its row with LastSeen = now |
| Conversations.MarkReadInPlace | SyncSyntax/Areas/ContentCreator/Controllers/MessagesController.cs:78-88 | the loop leaves the table equal to the marked-read table, and reports whether there was anything to mark |
| CreatorMessages.MessageIndex | SyncSyntax/Areas/ContentCreator/Controllers/MessagesController.cs:109 | the index found has the id; none exactly when no message has it |
| CreatorMessages.Index | SyncSyntax/Areas/ContentCreator/Controllers/MessagesController.cs:29-67 | a viewer without an account fails with no page (the null user's id is read); otherwise the creator inbox page is the shared inbox page, holding only messages the viewer can see, without changing the store |
| CreatorMessages.Chat | SyncSyntax/Areas/ContentCreator/Controllers/MessagesController.cs:69-102 | a viewer without an account fails with nothing changed (the null user is dereferenced); otherwise opening a chat stamps last-seen, marks the other party's messages read, saves, and returns the sorted thread and the other user |
| Conversations.OpenChat | SyncSyntax/Areas/ContentCreator/Controllers/MessagesController.cs:73-89 | last-seen is stamped and saved, exactly the other party's unread messages to the viewer are marked read, and a second save happens iff one was marked |
| CreatorMessages.DeleteOutcome | SyncSyntax/Areas/ContentCreator/Controllers/MessagesController.cs:106-149 | NotFound iff message or user missing; Forbid iff the scope is "all" and the caller is not the sender; BadRequest iff the scope is unknown; Ok otherwise |
| CreatorMessages.DeleteForMe | SyncSyntax/Areas/ContentCreator/Controllers/MessagesController.cs:130-143 | afterwards the message is deleted for the user; one row is added only if none existed |
| CreatorMessages.DeleteForMeIdempotent | SyncSyntax/Areas/ContentCreator/Controllers/MessagesController.cs:130-143 | deleting for oneself twice leaves what deleting once left |
| CreatorMessages.CountDeletions | SyncSyntax/Areas/ContentCreator/Controllers/MessagesController.cs:130-131 | a (user, message) pair has deletion rows iff the message is deleted for that user |
| CreatorMessages.DeleteForMeLeavesOneRow | SyncSyntax/Areas/ContentCreator/Controllers/MessagesController.cs:130-143 | from at most one row for a (user, message) pair, a delete-for-me leaves exactly one |
| CreatorMessages.DeleteMessage | SyncSyntax/Areas/ContentCreator/Controllers/MessagesController.cs:106-149 | the answer is the outcome above; Ok with "all" removes that message, and the database cascade removes its deletion and reaction rows, and saves; Ok with "me" adds the deletion once and saves; nothing changes otherwise |
| CreatorMessages.EditContent | SyncSyntax/Areas/ContentCreator/Controllers/MessagesController.cs:152-163 | the edit is refused iff the message is missing or the caller is not its sender; otherwise only that row's content changes |
| CreatorMessages.EditLastWins | SyncSyntax/Areas/ContentCreator/Controllers/MessagesController.cs:160 | two edits in a row give the table of the second alone |
| CreatorMessages.EditMessage | SyncSyntax/Areas/ContentCreator/Controllers/MessagesController.cs:152-164 | Ok iff the edit is allowed, and then the table is the edited one and one commit is logged; Forbid changes nothing |
| CreatorMessages.MessageInfo | SyncSyntax/Areas/ContentCreator/Controllers/MessagesController.cs:168-182 | the info is refused iff the message is missing or not the caller's; otherwise it reports that message's sent time, read flag and read time |
| CreatorMessages.MarkMessagesAsRead | SyncSyntax/Areas/ContentCreator/Controllers/MessagesController.cs:185-197 | marks read what the sender sent the reader, and always saves |
| AdminMessages.Index | SyncSyntax/Areas/Admin/Controllers/MessagesController.cs:30-68 | a viewer without an account fails with no page; otherwise the admin inbox is the same page, with the no-chats notice iff nothing is visible |
| AdminMessages.PinnedMessage | SyncSyntax/Areas/Admin/Controllers/MessagesController.cs:95-99 | the pinned message is a pinned message of the conversation; none iff the conversation has no pinned message |
| AdminMessages.PinnedSurvivesMarking | SyncSyntax/Areas/Admin/Controllers/MessagesController.cs:77-99 | marking read neither adds nor removes a pin, and the pinned message keeps its id and content |
| AdminMessages.ReactionsTo | SyncSyntax/Areas/Admin/Controllers/MessagesController.cs:105-106 | the reactions kept are exactly those to the message |
| AdminMessages.ReactorNames | SyncSyntax/Areas/Admin/Controllers/MessagesController.cs:118 | one reactor's first name per reaction, in order |
| AdminMessages.Emojis | SyncSyntax/Areas/Admin/Controllers/MessagesController.cs:114 | one emoji per reaction, in order |
| AdminMessages.GroupOf | SyncSyntax/Areas/Admin/Controllers/MessagesController.cs:114-119 | a group's count is the number of reactions with its emoji, and its names are the first names of exactly those reactors, one per reaction, in table order |
| AdminMessages.GroupsOver | SyncSyntax/Areas/Admin/Controllers/MessagesController.cs:114-119 | one group per emoji asked for |
| AdminMessages.EmojisUsed | SyncSyntax/Areas/Admin/Controllers/MessagesController.cs:114 | an emoji is listed iff some reaction uses it |
| AdminMessages.GroupsFor | SyncSyntax/Areas/Admin/Controllers/MessagesController.cs:114-119 | one group per emoji used, none for an unused one; each group is the count and names of its emoji's reactions, with a positive count |
| AdminMessages.GroupsOverCounted | SyncSyntax/Areas/Admin/Controllers/MessagesController.cs:114-119 | a group for an emoji that is in use has a positive count |
| AdminMessages.GroupsOverEmojis | SyncSyntax/Areas/Admin/Controllers/MessagesController.cs:114-119 | there is a group for an emoji iff the emoji is among those grouped |
| AdminMessages.CountInSplit | SyncSyntax/Areas/Admin/Controllers/MessagesController.cs:114-117 | the rows of a fresh emoji add to the rows of the others |
| AdminMessages.GroupsOverTotal | SyncSyntax/Areas/Admin/Controllers/MessagesController.cs:114-117 | the counts of groups over distinct emojis add up to the rows carrying them |
| AdminMessages.CountInNone | SyncSyntax/Areas/Admin/Controllers/MessagesController.cs:114-117 | no emoji covers no row |
| AdminMessages.CountInAll | SyncSyntax/Areas/Admin/Controllers/MessagesController.cs:114-117 | emojis covering every reaction cover all rows |
| AdminMessages.ReactionGroupsPartition | SyncSyntax/Areas/Admin/Controllers/MessagesController.cs:114-119 | the groups of a message partition its reactions: their counts add up to the number of reactions |
| AdminMessages.ReactionTally | SyncSyntax/Areas/Admin/Controllers/MessagesController.cs:103-122 | the tally has a key iff the message is in the thread and has reactions, and maps it to that message's groups |
| AdminMessages.TallyCountsEveryReaction | SyncSyntax/Areas/Admin/Controllers/MessagesController.cs:103-122 | every reaction to a tallied message is counted once |
| AdminMessages.TallyCountsPerEmoji | SyncSyntax/Areas/Admin/Controllers/MessagesController.cs:106-119 | each group of a tallied message counts the table's reactions to that message with that emoji |
| AdminMessages.IdsOf | SyncSyntax/Areas/Admin/Controllers/MessagesController.cs:103 | one id per thread message, in order |
| AdminMessages.Chat | SyncSyntax/Areas/Admin/Controllers/MessagesController.cs:70-128 | a viewer without an account fails with nothing changed (the null user is dereferenced); otherwise stamps last-seen, marks read, saves, and returns the sorted thread, the pinned message, the other user and the reaction tally of that thread |
| ChatHub.EventFor | SyncSyntax/Models/ChatHub/ChatHub.cs:39 | the event carries the stored message's sender, content, id, time and read flag |
| ChatHub.SendEffects | SyncSyntax/Models/ChatHub/ChatHub.cs:35-42 | the message is saved first, then the same event goes to the receiver and then to the sender |
| ChatHub.SendMessage | SyncSyntax/Models/ChatHub/ChatHub.cs:21-43 | an unknown sender changes nothing; otherwise exactly one new unread message is appended with the next id, followed by those effects |
| ChatHub.SendRaisesBadge | SyncSyntax/Models/ChatHub/ChatHub.cs:26-36 | a sent message raises the receiver's unread badge by exactly one |
| ChatHub.SentMessageInThread | SyncSyntax/Models/ChatHub/ChatHub.cs:26-36 | the sent message is in the thread seen from either side |
| Archive.Threshold | SyncSyntax/Services/ArchiveService.cs:18 | the cut-off is 360 days before now |
| Archive.Selected | SyncSyntax/Services/ArchiveService.cs:17-19 | the sweep selects exactly the messages sent before the cut-off |
| Archive.Kept | SyncSyntax/Services/ArchiveService.cs:39 | the live table keeps exactly the messages not before the cut-off |
| Archive.ArchiveCopy | SyncSyntax/Services/ArchiveService.cs:27-36 | the copy carries the seven fields over under a new id |
| Archive.ArchiveCopies | SyncSyntax/Services/ArchiveService.cs:27-36 | one copy per selected message, in order, with consecutive ids |
| Archive.RestoreCopy | SyncSyntax/Services/ArchiveService.cs:27-36 | the copy gives the message back except for the audio path, which is not archived |
| Archive.SweepPartitions | SyncSyntax/Services/ArchiveService.cs:17-39 | selected and kept split the table: every message lands on exactly one side |
| Archive.SweepAgainSelectsNothing | SyncSyntax/Services/ArchiveService.cs:17-39 | a second sweep at the same instant selects nothing |
| Archive.KeptIsUnchangedWhenNothingOld | SyncSyntax/Services/ArchiveService.cs:21-25 | with nothing old the live table is unchanged |
| Archive.ArchiveOldMessages | SyncSyntax/Services/ArchiveService.cs:13-44 | nothing old leaves the store alone; otherwise the old messages move to the archive as copies, the rest stay, the cascade removes the old messages' deletion and reaction rows, and one commit is logged |
| ChatClient.EscapeChar | SyncSyntax/wwwroot/js/Chat.js:416-426 | a special character becomes an entity; no output character is markup |
| ChatClient.EscapeHtml | SyncSyntax/wwwroot/js/Chat.js:416-426 | the escaped text holds none of < > " ' |
| ChatClient.EscapeHtmlPlain | SyncSyntax/wwwroot/js/Chat.js:416-426 | text without special characters passes unchanged |
| ChatClient.UnescapeChar | SyncSyntax/wwwroot/js/Chat.js:418-424 | each entity is read back as the character it replaced |
| ChatClient.EscapeRoundTrip | SyncSyntax/wwwroot/js/Chat.js:416-426 | a browser displays exactly the original text |
| ChatClient.Render | SyncSyntax/wwwroot/js/Chat.js:29-74 | a message is sent iff its sender is the current user; sent messages offer edit, delete for everyone and info; received ones offer copy and pin or unpin; the tick shows iff sent and read (the content is inserted into `innerHTML` unescaped, so rendering is not modelled beyond these) |
| ChatClient.MenuAgreesWithServer | SyncSyntax/wwwroot/js/Chat.js:42-51 | delete for everyone and edit are offered iff the server would accept them |
| ChatClient.SendGuard | SyncSyntax/wwwroot/js/Chat.js:89-100 | the send is refused iff a field is blank; otherwise the trimmed values are sent |
| ChatClient.SendGuardMeetsAnnotations | SyncSyntax/wwwroot/js/Chat.js:89-100 | whatever passes the guard makes a message that meets its annotations |
| ChatClient.BulkActions | SyncSyntax/wwwroot/js/Chat.js:295-313 | cancel shows iff something is selected; delete-all shows iff every selected message is the user's |
| ChatClient.SenderAttributes | SyncSyntax/wwwroot/js/Chat.js:35 | each selected element carries its sender id |
| ChatClient.BulkDeleteAllAccepted | SyncSyntax/wwwroot/js/Chat.js:309-311 | when delete-all is offered, the server accepts delete-for-everyone on every selected message |
| ChatClient.ExportSender | SyncSyntax/wwwroot/js/Chat.js:473 | a missing or empty sender becomes "Unknown"; the sender is never empty |
| ChatClient.ExportEntry | SyncSyntax/wwwroot/js/Chat.js:477 | each entry starts with the sender label followed by the entry body |
| ChatClient.ExportSenderReadBack | SyncSyntax/wwwroot/js/Chat.js:473-477 | a sender without a line break can be read back from its entry |
| ChatClient.Present | SyncSyntax/wwwroot/js/Chat.js:467-479 | the entries kept are exactly the selections inside a message element |
| ChatClient.Entries | SyncSyntax/wwwroot/js/Chat.js:467-478 | one entry per present message, in order |
| ChatClient.Export | SyncSyntax/wwwroot/js/Chat.js:464-486 | nothing is exported iff no selection is inside a message; otherwise the export starts with the first entry's sender label (its full content is given by ExportSplitsIntoEntries) |
| ChatClient.NoBreakDashEndsBeforeSeparator | SyncSyntax/wwwroot/js/Chat.js:486 | an entry with no line break, line break, dash run cannot be taken for the start of the separator |
| ChatClient.ExportSplitsIntoEntries | SyncSyntax/wwwroot/js/Chat.js:467-486 | splitting the export on the separator gives back exactly the entries of the selected messages, in order |
| Text.SplitJoinRoundTrip | SyncSyntax/wwwroot/js/Chat.js:486 | splitting a join on its separator gives the parts back when no part runs into the separator |
| ChatClient.PresentEmpty | SyncSyntax/wwwroot/js/Chat.js:479-484 | the "no messages" alert shows iff no selection is inside a message |
| Likes.LikeIndex | SyncSyntax/Areas/ContentCreator/Controllers/PostController.cs:357 | the like found is this user's on this post; none iff the user has not liked it |
| Likes.RowsBy | SyncSyntax/Areas/ContentCreator/Controllers/PostController.cs:357 | the user has no rows on the post iff they have not liked it |
| Likes.ToggleRows | SyncSyntax/Areas/ContentCreator/Controllers/PostController.cs:357-376 | a toggle adds a row iff the user had not liked the post, and otherwise removes their first row |
| Likes.ToggleMovesRowCount | SyncSyntax/Areas/ContentCreator/Controllers/PostController.cs:360-376 | a toggle adds or removes exactly one of the post's like rows |
| Likes.ToggleFlips | SyncSyntax/Areas/ContentCreator/Controllers/PostController.cs:360-376 | with at most one row per user and post, a toggle flips whether the user likes the post |
| Likes.ToggleTwiceRestoresLiked | SyncSyntax/Areas/ContentCreator/Controllers/PostController.cs:360-376 | toggling twice brings back whether the user likes the post |
| CreatorPosts.FollowerIdsOf | SyncSyntax/Areas/ContentCreator/Controllers/PostController.cs:62-65 | one id per following row of the author, in table order (so as many ids as such rows, duplicates kept), and exactly the author's followers |
| CreatorPosts.FanOutShape | SyncSyntax/Areas/ContentCreator/Controllers/PostController.cs:67-82 | every fan-out notification is unread, carries the message and time, goes to a listed follower who resolves to a user, and the ids run on consecutively |
| CreatorPosts.FanOutCoversResolvable | SyncSyntax/Areas/ContentCreator/Controllers/PostController.cs:67-82 | the fan-out has one notification per resolvable id, and every resolvable follower gets one |
| CreatorPosts.FanOutCount | SyncSyntax/Areas/ContentCreator/Controllers/PostController.cs:67-82 | the fan-out has as many notifications as there are follower ids that resolve to a user |
| CreatorPosts.FanOutReaches | SyncSyntax/Areas/ContentCreator/Controllers/PostController.cs:67-82 | every follower id that resolves to a user receives a notification |
| CreatorPosts.FanOutStepAdds | SyncSyntax/Areas/ContentCreator/Controllers/PostController.cs:69-81 | a follower who resolves to a user adds one notification, numbered after the ones before |
| CreatorPosts.FanOutStepSkips | SyncSyntax/Areas/ContentCreator/Controllers/PostController.cs:69-71 | a follower who does not resolve to a user adds nothing |
| CreatorPosts.PublishNotes | SyncSyntax/Areas/ContentCreator/Controllers/PostController.cs:56-85 | unpublishing or an unknown author notifies nobody; publishing notifies the author's followers |
| CreatorPosts.NotifyFollowers | SyncSyntax/Areas/ContentCreator/Controllers/PostController.cs:67-82 | the loop appends exactly the fan-out and advances the identity counter past it |
| CreatorPosts.TogglePublishStatus | SyncSyntax/Areas/ContentCreator/Controllers/PostController.cs:40-89 | NotFound or Unauthorized change nothing; otherwise the flag flips and is saved, and publishing also saves the followers' notifications |
| CreatorPosts.WithAuthor | SyncSyntax/Areas/ContentCreator/Controllers/PostController.cs:121-127 | with a signed-in user the post takes that user's id, name and picture (or the default picture) |
| CreatorPosts.FeatureImage | SyncSyntax/Areas/ContentCreator/Controllers/PostController.cs:137-158 | an upload wins; else the form's path; else the stored post's path on edit, or the default image on create |
| CreatorPosts.SaveKeepsAnImage | SyncSyntax/Areas/ContentCreator/Controllers/PostController.cs:137-158 | a new post always gets an image, and re-saving a post that had one keeps an image |
| CreatorPosts.Save | SyncSyntax/Areas/ContentCreator/Controllers/PostController.cs:112-183 | a blank title or content shows the form and changes nothing; otherwise the file is written first, then a category id with no category or an update of a missing row fails with 500 and stores nothing, and otherwise the row is inserted or replaced and saved |
| CreatorPosts.ExplorePosts | SyncSyntax/Areas/ContentCreator/Controllers/PostController.cs:192-204 | exactly the published posts of the category, newest first, as a permutation of the filtered table |
| CreatorPosts.ExploreItems | SyncSyntax/Areas/ContentCreator/Controllers/PostController.cs:207-220 | each card is marked followed iff the viewer follows its author |
| CreatorPosts.Explore | SyncSyntax/Areas/ContentCreator/Controllers/PostController.cs:186-232 | the page lists every and only the explorable posts, newest first, with the follow flag and the unread badge |
| CreatorPosts.FlooredCount | SyncSyntax/Areas/ContentCreator/Controllers/PostController.cs:363-374 | a like adds one; an unlike subtracts one but never goes below zero |
| CreatorPosts.LikeKeepsCountInStep | SyncSyntax/Areas/ContentCreator/Controllers/PostController.cs:357-376 | a count that matched the post's like rows still matches after a toggle |
| CreatorPosts.Like | SyncSyntax/Areas/ContentCreator/Controllers/PostController.cs:339-390 | no user or no post changes nothing; a new like by an account that no longer exists fails the save with 500 and changes nothing; otherwise the like toggles, the count moves with the floor, it is saved, and then the group of the post is told |
| FollowFeed.FollowedIds | SyncSyntax/Areas/ContentCreator/Controllers/FollowingController.cs:34-37 | the ids are exactly those the viewer follows |
| FollowFeed.UnknownFilterKeepsAll | SyncSyntax/Areas/ContentCreator/Controllers/FollowingController.cs:49-71 | an unknown filter keeps every post |
| FollowFeed.TagSearchNeedsTags | SyncSyntax/Areas/ContentCreator/Controllers/FollowingController.cs:66-67 | a tag search matches iff the post has tags containing the lower-cased term |
| FollowFeed.FeedPosts | SyncSyntax/Areas/ContentCreator/Controllers/FollowingController.cs:39-76 | exactly the feed's posts, each as often as in the table, newest first |
| FollowFeed.FeedItems | SyncSyntax/Areas/ContentCreator/Controllers/FollowingController.cs:78-95 | one card per post, marked followed, and marked saved iff the viewer saved it |
| FollowFeed.FollowingPosts | SyncSyntax/Areas/ContentCreator/Controllers/FollowingController.cs:29-105 | every and only the published posts of followed authors that match the search and category, each as often as in the table, newest first, with the saved flags and both badges |
| FollowFeed.FeedIsAllFollowed | SyncSyntax/Areas/ContentCreator/Controllers/FollowingController.cs:34-42 | every card of the feed is by an author the viewer follows |
| FollowFeed.FeedCountsEachPost | SyncSyntax/Areas/ContentCreator/Controllers/FollowingController.cs:34-76 | a post of the feed appears on as many cards as it has rows in the table; any other post on none |
| FollowFeed.PostsBy | SyncSyntax/Areas/ContentCreator/Controllers/FollowingController.cs:219-224 | the profile lists the user's posts, newest first, as a permutation of the filtered table |
| FollowFeed.Profile | SyncSyntax/Areas/ContentCreator/Controllers/FollowingController.cs:199-253 | no page iff the user is missing; otherwise the counts, the posts and whether the viewer follows |
| FollowFeed.FollowRaisesCounts | SyncSyntax/Areas/ContentCreator/Controllers/FollowingController.cs:125-138 | a follow raises the followee's follower count and the follower's following count by one |
| FollowFeed.FollowIndex | SyncSyntax/Areas/ContentCreator/Controllers/FollowingController.cs:149-151 | the row found is the pair's; none iff the viewer does not follow the user |
| FollowFeed.UnfollowLowersCounts | SyncSyntax/Areas/ContentCreator/Controllers/FollowingController.cs:149-169 | an unfollow lowers both counts by one |
| FollowFeed.Follow | SyncSyntax/Areas/ContentCreator/Controllers/FollowingController.cs:107-142 | an unknown user or oneself adds nothing and redirects with the message; a caller whose account no longer exists fails the first save with 500 and adds nothing; otherwise a following row and a notice to the followee are added and saved twice |
| FollowFeed.Unfollow | SyncSyntax/Areas/ContentCreator/Controllers/FollowingController.cs:144-172 | not following changes nothing; otherwise the row is removed and saved |
| FollowFeed.StepKeepsCountInStep | SyncSyntax/Areas/ContentCreator/Controllers/FollowingController.cs:286-313 | a count that matched the post's like rows still matches after this controller's toggle |
| FollowFeed.UnflooredCountCanGoNegative | SyncSyntax/Areas/ContentCreator/Controllers/FollowingController.cs:305-313 | without a floor, a count of zero while the user's like row remains goes to minus one on unlike, and a count in step with the rows never goes negative |
| FollowFeed.Like | SyncSyntax/Areas/ContentCreator/Controllers/FollowingController.cs:272-332 | an unknown post changes nothing; a new like by an account that no longer exists is refused by the save, caught, and changes nothing; otherwise the like toggles, the count moves by one, it is saved and the group is told |
| NotificationPage.Index | SyncSyntax/Areas/ContentCreator/Controllers/NotificationController.cs:26-44 | exactly the viewer's notifications, newest first, as a permutation, with both badges |
| NotificationPage.BadgeCountsListedUnread | SyncSyntax/Areas/ContentCreator/Controllers/NotificationController.cs:29-41 | the unread badge counts exactly the unread notifications the page lists |
| NotificationPage.NotificationIndex | SyncSyntax/Areas/ContentCreator/Controllers/NotificationController.cs:49 | the index found has the id; none iff no notification has it |
| NotificationPage.MarkedAsRead | SyncSyntax/Areas/ContentCreator/Controllers/NotificationController.cs:49-53 | the notification with the id becomes read and nothing else changes; an unknown id changes nothing |
| NotificationPage.MarkAsReadIdempotent | SyncSyntax/Areas/ContentCreator/Controllers/NotificationController.cs:49-53 | marking twice is marking once |
| NotificationPage.MarkAsReadLowersBadge | SyncSyntax/Areas/ContentCreator/Controllers/NotificationController.cs:49-53 | marking lowers the owner's badge by one iff the notification was unread, and leaves other badges alone |
| NotificationPage.MarkAsRead | SyncSyntax/Areas/ContentCreator/Controllers/NotificationController.cs:47-57 | always redirects to the list; a found notification is marked read and saved |
| CommentHub.PostGroup | SyncSyntax/Models/Hubs/CommentHub.cs:41-47 | a post's events go to the group named by its id |
| CommentHub.PostGroupsDistinct | SyncSyntax/Models/Hubs/CommentHub.cs:41-47 | different posts have different groups |
| CommentHub.GroupToJoin | SyncSyntax/Models/Hubs/CommentHub.cs:51-59 | a connection joins a group iff it names a post, and that group is named by the query |
| CommentHub.PageJoinsItsPostGroup | SyncSyntax/Models/Hubs/CommentHub.cs:51-59 | a page of post n joins the group its comments are sent to |
| CommentHub.DisplayName | SyncSyntax/Models/Hubs/CommentHub.cs:37-38 | the author's user name, or "Unknown" when the user is missing |
| CommentHub.BroadcastComment | SyncSyntax/Models/Hubs/CommentHub.cs:19-48 | the comment is stored iff there is a caller, the content is not blank, and the post and the caller's account exist (the foreign keys); otherwise nothing changes; a stored comment is saved and then sent to the post's group |
| CommentHub.CommentIndex | SyncSyntax/Models/Hubs/CommentHub.cs:64-66 | the index found is the first comment with the id; none iff none has it |
| CommentHub.DeleteComment | SyncSyntax/Models/Hubs/CommentHub.cs:62-80 | only the author may delete; the comment is removed, saved, and then the deletion is sent to the post's group |
| CommentHub.OwnCommentDeletable | SyncSyntax/Models/Hubs/CommentHub.cs:64-70 | a comment just posted may be deleted by its author and by nobody else |
| Categories.List | SyncSyntax/Areas/Admin/Controllers/CategoryController.cs:16-27 | one line per category, in order, with the number of its posts |
| Categories.ListCountsNewPost | SyncSyntax/Areas/Admin/Controllers/CategoryController.cs:18-24 | filing one more post raises its category's count by one and leaves the others |
| Categories.CategoryIndex | SyncSyntax/Areas/Admin/Controllers/CategoryController.cs:52 | the index found has the id; none iff no category has it |
| Categories.Saved | SyncSyntax/Areas/Admin/Controllers/CategoryController.cs:33-45 | id 0 inserts with a new id; a known id replaces that row; an unknown id changes nothing |
| Categories.EditIdempotent | SyncSyntax/Areas/Admin/Controllers/CategoryController.cs:33-45 | saving the same edit twice is saving it once |
| Categories.Save | SyncSyntax/Areas/Admin/Controllers/CategoryController.cs:29-46 | always reports success, applies the upsert and saves |
| Categories.Delete | SyncSyntax/Areas/Admin/Controllers/CategoryController.cs:48-59 | an unknown id reports success unchanged; a category with a liked post fails unchanged; otherwise the category, its posts and their comments are removed, saved, and success reported |
| Categories.DeleteCascades | SyncSyntax/Areas/Admin/Controllers/CategoryController.cs:54-55 | the cascade removes exactly the category's posts and the comments on them, keeping everything else |
| Categories.DeleteRemovesOneRow | SyncSyntax/Areas/Admin/Controllers/CategoryController.cs:52-58 | a delete shrinks the table by one and leaves one fewer row with that id |
| Dashboard.TrimAll | SyncSyntax/Areas/Admin/Controllers/HomeController.cs:25 | each piece is trimmed, in order |
| Dashboard.TotalTags | SyncSyntax/Areas/Admin/Controllers/HomeController.cs:21-25 | the tag total is the number of different trimmed pieces |
| Dashboard.TagPiecesAppend | SyncSyntax/Areas/Admin/Controllers/HomeController.cs:21-25 | the pieces of two tables are the pieces of each |
| Dashboard.RepeatedTagsCountOnce | SyncSyntax/Areas/Admin/Controllers/HomeController.cs:25 | a post whose tags are already in use leaves the total alone |
| Dashboard.BlankPieceCounts | SyncSyntax/Areas/Admin/Controllers/HomeController.cs:22-25 | every piece made only of white space trims to "" and "" is counted among the tags |
| Dashboard.BlankPieces | SyncSyntax/Areas/Admin/Controllers/HomeController.cs:22-25 | tags made only of white space yield the single piece "" and count exactly one tag |
| Dashboard.SingleTag | SyncSyntax/Areas/Admin/Controllers/HomeController.cs:23-25 | a plain word is one piece, itself |
| Dashboard.DifferentTagsCountTwice | SyncSyntax/Areas/Admin/Controllers/HomeController.cs:21-25 | two posts with different plain tags make two tags |
| Dashboard.PiecesOfPair | SyncSyntax/Areas/Admin/Controllers/HomeController.cs:21-25 | the pieces of two posts are those of each in order |
| Dashboard.DashboardTotals | SyncSyntax/Areas/Admin/Controllers/HomeController.cs:27-36 | the totals are the table sizes, the distinct tags, and the sums of likes, views and comments |
| Dashboard.SumAppend | SyncSyntax/Areas/Admin/Controllers/HomeController.cs:33-35 | sums over two tables add up |
| Dashboard.NewPostAddsToTotals | SyncSyntax/Areas/Admin/Controllers/HomeController.cs:33-35 | a new post adds its likes and views to the totals |
| Dashboard.CommentTotalBounded | SyncSyntax/Areas/Admin/Controllers/HomeController.cs:34 | with distinct post ids, the comment total counts each comment on some post once, so it is at most the comment table |
| Dashboard.CountWhereDisjointUnion | SyncSyntax/Areas/Admin/Controllers/HomeController.cs:34 | counts under disjoint conditions add up |
| Dashboard.ChartLabels | SyncSyntax/Areas/Admin/Controllers/HomeController.cs:39-43 | seven labels, the weekdays of the six days before today and today |
| Dashboard.ChartLabelsDistinct | SyncSyntax/Areas/Admin/Controllers/HomeController.cs:39-43 | the seven labels are all different, so each weekday has one slot |
| Dashboard.IndexOf | SyncSyntax/Areas/Admin/Controllers/HomeController.cs:60 | the first position of the label, or -1 iff it is absent |
| Dashboard.Filled | SyncSyntax/Areas/Admin/Controllers/HomeController.cs:45-64 | the data always has seven slots |
| Dashboard.UnwrittenSlotIsZero | SyncSyntax/Areas/Admin/Controllers/HomeController.cs:45-64 | a slot no row writes to stays zero |
| Dashboard.LastWriteWins | SyncSyntax/Areas/Admin/Controllers/HomeController.cs:57-64 | the last row written to a slot decides its value |
| Dashboard.Chart | SyncSyntax/Areas/Admin/Controllers/HomeController.cs:39-64 | the loop fills a fresh seven-slot array with exactly the specified data |
| Scheduler.PublishDue | SyncSyntax/Services/PostSchedulerService.cs:24-32 | only the published flag changes, and a post is published afterwards iff it was before or was due |
| Scheduler.TickIdempotent | SyncSyntax/Services/PostSchedulerService.cs:24-34 | a second tick at the same instant changes nothing |
| Scheduler.TicksCompose | SyncSyntax/Services/PostSchedulerService.cs:17-34 | a later tick subsumes an earlier one |
| Scheduler.Tick | SyncSyntax/Services/PostSchedulerService.cs:21-36 | the loop leaves the posts as one tick specifies and saves once |
| Scheduler.Commits | SyncSyntax/Services/PostSchedulerService.cs:34 | n commits and nothing else |
| Scheduler.Run | SyncSyntax/Services/PostSchedulerService.cs:15-38 | after k ticks the posts are as one tick at the last instant leaves them, and k commits are logged |
| PostPages.Wrap32 | SyncSyntax/Controllers/PostController.cs:69 | the result is a 32-bit value congruent to the input, and equal to it when it fits |
| PostPages.MaxSizeBytesExact | SyncSyntax/Controllers/PostController.cs:69 | up to 2047 MB the byte limit is exact |
| PostPages.MaxSizeBytesWrapsAt2048 | SyncSyntax/Controllers/PostController.cs:69-75 | at 2048 MB the limit wraps negative and every image is too large |
| PostPages.ImageError | SyncSyntax/Controllers/PostController.cs:60-75 | no error iff the extension is allowed and the size within the limit; the extension is checked first |
| PostPages.LimitIsInclusive | SyncSyntax/Controllers/PostController.cs:69-75 | an image of exactly the limit passes, and one byte more fails |
| PostPages.FileName | SyncSyntax/Controllers/PostController.cs:152-153 | the file name is the tail after the last '/' |
| PostPages.OldImageRemoval | SyncSyntax/Controllers/PostController.cs:150-160 | the old image is deleted iff the post has an image path |
| PostPages.Create | SyncSyntax/Controllers/PostController.cs:43-85 | an invalid form or a bad image changes nothing; otherwise the file is stored, then a category id with no category fails the save and stores no row, and otherwise the post is inserted with the next id and saved |
| PostPages.Edit | SyncSyntax/Controllers/PostController.cs:99-177 | an invalid form, an unknown post or a bad image changes nothing; otherwise the old image is deleted and the new one stored when one is sent, then a category id with no category fails the save and leaves the row, and otherwise the row is replaced and saved |
| PostPages.EditTouchesOnlyItsRow | SyncSyntax/Controllers/PostController.cs:172-173 | an edit leaves every other post findable as before |
| PostPages.Index | SyncSyntax/Controllers/PostController.cs:180-198 | all posts without a category, and exactly the category's posts with one |
| PostPages.IndexByCategoryKeepsMultiplicity | SyncSyntax/Controllers/PostController.cs:186-192 | the category listing keeps every post of the category as often as in the table |
| PostPages.DeleteConfirm | SyncSyntax/Controllers/PostController.cs:217-249 | a negative id is a bad request and an unknown one not found, both changing nothing; a liked post keeps its row but loses its image and the action fails (the likes' foreign key has no delete action); otherwise the image is deleted, the row and its comments removed and saved |
| PostPages.CascadeDropsOnlyItsComments | SyncSyntax/Controllers/PostController.cs:244-245 | the cascade removes exactly the deleted post's comments and keeps every other comment |
| PostPages.DeleteRemovesExactlyThatPost | SyncSyntax/Controllers/PostController.cs:222-245 | with unique ids the deleted post is gone and every other post is still found |
| PostPages.DetailOf | SyncSyntax/Controllers/PostController.cs:252-277 | not found iff the id is 0 or unknown; otherwise the post and exactly its comments |
| MinAge.AgeIsWholeYears | SyncSyntax/Validation/MinAgeAttribute.cs:25-29 | the age is the difference of years, less one iff the birthday is still to come this year |
| MinAge.AgeNotNegative | SyncSyntax/Validation/MinAgeAttribute.cs:25-29 | a birth date not in the future gives an age of at least zero |
| MinAge.Validate | SyncSyntax/Validation/MinAgeAttribute.cs:15-34 | no value, not a date, a future date and too young each give their message; old enough passes |
| MinAge.BirthdayTodayPasses | SyncSyntax/Validation/MinAgeAttribute.cs:25-33 | someone reaching the minimum age today passes |
| MinAge.DayBeforeBirthdayFails | SyncSyntax/Validation/MinAgeAttribute.cs:25-33 | someone whose birthday in the limit year is still to come fails with the too-young message |
| SignUpForm.Broken | SyncSyntax/Models/ViewModels/SignUpViewModel.cs:7-24 | each rule is reported iff its field breaks it |
| SignUpForm.ValidMeans | SyncSyntax/Models/ViewModels/SignUpViewModel.cs:7-22 | a form is valid iff the address has one inner '@', both passwords are present and equal, and the major is 2 to 50 characters |
| SignUpForm.PictureOptional | SyncSyntax/Models/ViewModels/SignUpViewModel.cs:24 | the picture never decides validity |
| Auth.UserNameFromEmail | SyncSyntax/Controllers/AuthController.cs:51 | the user name is the address up to its first '@' |
| Auth.ValidEmailGivesUserName | SyncSyntax/Controllers/AuthController.cs:51 | a valid address yields a non-empty user name |
| Auth.RedirectFor | SyncSyntax/Controllers/AuthController.cs:113-123 | admins go to the admin home, then content creators to their feed, and everyone else home |
| Auth.SignUpPictureError | SyncSyntax/Controllers/AuthController.cs:66-89 | no file never errs; a file errs iff too large or of a refused type, size first |
| Auth.ChecksRunInOppositeOrders | SyncSyntax/Controllers/AuthController.cs:72-86 | a file both too large and of a refused type is refused for size at sign-up but for format on the post pages |
| Auth.NewAccount | SyncSyntax/Controllers/AuthController.cs:51-62 | the new account has the address, its user name, the major and picture, the given name, gender, phone and birth date, no bio, and the content-creator role |
| Auth.NewAccountLandsOnFeed | SyncSyntax/Controllers/AuthController.cs:96-123 | a new account is sent to the creators' feed |
| Auth.SignUp | SyncSyntax/Controllers/AuthController.cs:46-134 | an invalid form or picture changes nothing; a stored picture stays even if creation fails; success adds the account, signs it in and welcomes it |
| Auth.CreateAccount | SyncSyntax/Controllers/AuthController.cs:66-127 | a sent picture is stored before creation and kept if creation fails; success adds the account, signs it in, saves a welcome notification and redirects by role |
| Auth.FindByEmail | SyncSyntax/Controllers/AuthController.cs:146 | the account found has the address, compared case-insensitively; none iff no account does |
| Auth.FindByName | SyncSyntax/Controllers/AuthController.cs:147 | the account found has the user name, compared case-insensitively; none iff no account does |
| Auth.SignInAccount | SyncSyntax/Controllers/AuthController.cs:146-154 | by address first, then by user name; none iff neither matches |
| Auth.SignIn | SyncSyntax/Controllers/AuthController.cs:141-178 | unknown accounts and wrong passwords fail with their messages; success signs in, welcomes by name and redirects by role |
| Auth.OldPictureRemoval | SyncSyntax/Controllers/AuthController.cs:256-260 | the old picture is deleted iff the account has one |
| Auth.PictureSteps | SyncSyntax/Controllers/AuthController.cs:242-270 | the picture is kept or replaced on success and kept on error; it errs iff the type is refused or the file too large |
| Auth.OversizeReplacementLosesOldPicture | SyncSyntax/Controllers/AuthController.cs:248-267 | an oversize replacement of an accepted type is refused after the old file was deleted |
| Auth.EditProfile | SyncSyntax/Controllers/AuthController.cs:201-285 | a missing user goes to sign-in; the rename is saved before any picture check; the details and picture are written only when every step passes |
| Auth.SaveProfile | SyncSyntax/Controllers/AuthController.cs:234-285 | a picture error or a failed update leaves the accounts as they were after the rename; otherwise the details and picture are written and the sign-in refreshed |
| Auth.BlankOrSameNameKept | SyncSyntax/Controllers/AuthController.cs:213-215 | a blank or unchanged name is kept |
| Auth.RenameGivesFreeName | SyncSyntax/Controllers/AuthController.cs:213-232 | a rename takes a name no other account holds |

## Left out

- The identity store is represented by parameters rather than modelled. Account creation (`createOk`), password checking (`passwordOk`), renaming (`setNameOk`), updating (`updateOk`) and the new account's id (`newUserId`) are inputs. Their internals are not part of this model.
- The upload service's generated file name is an input, `storedPath`. `File.Exists` is not consulted: deleting an old picture or image is always logged.
- The form-binding verdict of the post and sign-in pages is an input, `formValid`. Framework error strings are not reproduced. Sign-up validation reports a set of broken rules, not the framework messages.
- SignUpForm.EmailAddress: models the '@' rule of `[EmailAddress]` only, not its other checks.
- Clocks are inputs (`now`, `today`). Local time and UTC are collapsed into one instant.
- Date parsing of the search box is an input: the day the string parses to, if any.
- Culture-dependent formatting is not modelled, and case mapping is ASCII-only. Unicode white space and SQL collation are not modelled either: searches use ordinal comparison.
- Real-time transport, connection ids, the pin, reaction and bulk server endpoints, and the second comment hub under `Models/CommentHub/` are not part of this model.
- Foreign keys are modelled where a modelled action can break them:
  - deleting a post (`PostPages.DeleteConfirm`) or a category (`Categories.Delete`), with their cascades and the blocking `PostLike.PostId` key;
  - deleting a message for everyone (`CreatorMessages.DeleteMessage`) or archiving it (`Archive.ArchiveOldMessages`), which cascade to its deletion and reaction rows;
  - storing a post with a category id (`CreatorPosts.Save`, `PostPages.Create`, `PostPages.Edit`), a comment (`CommentHub.BroadcastComment`), a like (`CreatorPosts.Like`, `FollowFeed.Like`) or a following row (`FollowFeed.Follow`).
  Deleting an account and its cascades is not modelled.
- Inner-join drops from `Include` are not modelled: a query keeps a row whose referenced row is missing. No modelled action leaves such a row behind, but a store may start with one. Then `AdminMessages.ReactionTally`, `GroupOf` and `ReactorNames` count the orphan reaction and list a `None` name for it, and the post listings keep a post whose category is missing, where `Include` would drop both.
- Auth.SignUp: the first and last name, phone number, gender and date of birth come from form fields the sign-up view model does not declare, so they are an input, `details`.
- Scheduler.Run: the cancellation token becomes a tick count, ticks land at start + 60·k, and processing time is ignored.
- NotificationPage.MarkAsRead: the commit is logged only when the notification is found, because an unchanged context saves nothing.
- Counters are unbounded integers. The only 32-bit arithmetic modelled is the image size limit.
- A null string field is modelled as a non-null string, except where the source tests for null.
- `PostController.Create` takes its id from the identity counter, and the form's id is ignored.
- The content creators' `MyPosts`, `Detail` and `Delete` actions, and `Controllers/CategoryController.cs`, are not part of this model.
- `Post.PublishDate` and `AppUser.LastSeen` are read by the code but not declared in the entity files shown. The model adds them as optional fields.
