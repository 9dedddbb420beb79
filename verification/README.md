# A model of the station chat server

The chat server keeps avatars, their contacts and chat rooms in memory, mirrors them in a MariaDB
database and speaks a little-endian binary protocol. This project models its four hardest parts in
Dafny, and six small algorithms of the two header libraries it is built with, and proves what they
promise.

| files | what they model |
|---|---|
| `ChatTables`, `ChatSchema`, `ChatDatabase` | the stored tables, what their keys guarantee, and the server that may refuse or break off any statement |
| `ChatAvatars`, `ChatContacts`, `ChatAvatarRuns` | the avatar cache, the lazy loading of the friend/ignore graph, presence, contact lists and their stored counterparts |
| `ChatTurns`, `ChatRequests` | requests: what each means for tables and presence, the handlers that serve them, and whole runs |
| `RoomRules`, `ChatRooms` | rooms: the rules over sets and whole histories, and the lists that refine them |
| `SqlText`, `SqlLiteral`, `PreparedStatement`, `StatementCursor` | prepared statements: scanner, bindings, renderer, and the row-by-row protocol across reconnects |
| `ConnectionString`, `ConnectionStringLimits`, `ConnectionStringForms` | the two connection-string syntaxes |
| `WireFormat`, `WireRecords`, `WireLayout`, `WireStream`, `HexDump`, `HexDumpLines` | the byte layout of protocol records, the stream they go through, and the dump of messages |
| `SectionTree`, `SectionTracker` | Catch: which sections run in which cycle |
| `Odometer`, `Generators`, `TestCaseRun` | Catch: generators as a mixed-radix counter, and sections inside generators |
| `TotalsBar` | Catch: the totals bar |
| `LevelConfig`, `HitCounters`, `Wildcard` | Easylogging++: compressed level configuration, occasional logging, glob matching |
| `Text`, `Vectors`, `Strings`, `Decimal`, `Division`, `Wrappers` | shared: text conversion, vector idioms, searching, decimal text, remainders |

Objects whose methods update fields are classes; lists and maps they own are `seq` and `map` fields.
The database, the client library and the network are outside: the model lets the server refuse any
statement or break it off, lets a connection fail or be replaced at any step, and takes the escape function as a
parameter. `dafny verify dfyconfig.toml` checks the whole project.

Where the code does something its callers may not expect, the model follows the code and the exact
condition is proved:

* destroying an avatar does not take it out of other avatars' lists (`DestroyAvatar`, `DestroyFriend`; safe order:
  `ForgetAndDestroy`);
* logging out an avatar that does not exist, and taking one that does not exist off the ignored, go on with a null
  pointer (`NamesNobody`; src/stationchat/protocol/Protocol.cpp:475-486, and :577-583, which
  checks the source twice);
* a lookup by a text that storage does not give back can cache a second object of one avatar
  (`GetAvatarNamed`, `LookUpThatDoubles`), and creating an avatar under such a name caches one that differs
  from its row (`CreateAvatar`);
* appointing an administrator or a moderator writes a row into the ban table (`BanRowsStep`, `BanRowsMatch`,
  `AppointmentWritesBanRow`);
* removing an administrator that is not there erases the end of the list: such calls are outside `Defined`
  (`AbsentAdministrator`);
* a value rendered right behind an `@` can become a new placeholder (`RenderedAgain`, `NumberBehindAt`), and an
  apostrophe escaped with a backslash can turn a literal inside out (`ApostropheOpensLiteral`; harmless exactly for
  the texts of `RenderedTextsAgain`);
* the hex dump leaves the buffer at 32767 full rows and silently prints too little beyond (`DumpIsComplete`);
* a list of 2^32 or more records breaks the framing that over-long strings keep (`ListStaysInStep`);
* a global level set late changes levels set before (`CompressionIsFaithful`, `LateGlobalMovesLevel`), and a level
  set to the global value keeps its old one (`SetThenGet`, `GlobalValueDoesNotStick`);
* hit counters are right up to 100000 only (`EveryNthIff`, `OneBeyondTheLimit`);
* a total of 2^64 test cases prints the bar of none (`WrappedTotal`).

## Model

| member | source | states |
|---|---|---|
| `ChatAvatars.ChatAvatarService.GetAvatar` | src/stationchat/ChatAvatarService.cpp:30-45 | Ends for every stored graph, cycles and dangling rows included, and whatever select fails. On a server that answers every select, newly cached is exactly what can be reached from the target along stored friend and ignore rows through avatars that were not cached; every list of it is complete, in row order, pointing at the one cached object of the row's id (or null where no such avatar is stored); and the result is null exactly for an id neither cached nor stored. If a select fails, everything newly cached is still reachable, offline and describes its row. Nothing cached before is touched, and an id cached or not stored changes nothing; the service invariant is kept. |
| `ChatAvatars.ChatAvatarService.GetAvatarNamed` | src/stationchat/ChatAvatarService.cpp:13-28 | For any text asked for: a cached carrier of it is returned and nothing changes; otherwise, where every select is answered, null exactly if no row carries its stored form. Unless the text is uncached while its stored form is cached (`Doubles`), the service invariant is kept and what is loaded is as for an id; if it is so, a lookup whose selects are answered leaves two cached objects of one id. |
| `ChatAvatars.NamedRowIsCached` | src/stationchat/ChatAvatarService.cpp:13-18 | With names and addresses unique in the table, the row that a lookup finds is cached already if and only if some cached avatar carries the name and address as storage gives them back. |
| `ChatAvatarRuns.TextThatDoubles` | src/stationchat/ChatAvatarService.cpp:13-18 | The input: a cached avatar ("B", "S") and a lookup of (U+0142, "S"), whose narrow form is the same row. |
| `ChatAvatarRuns.LookUpThatDoubles` | src/stationchat/ChatAvatarService.cpp:13-28 | On a server that answers its selects, that lookup leaves two cached objects with one id. |
| `ChatAvatarRuns.StorableNamesDoNotDouble` | src/stationchat/ChatAvatarService.cpp:13-18 | Names and addresses that storage gives back unchanged never do this. |
| `ChatAvatars.ChatAvatarService.LoadNewAvatar` | src/stationchat/ChatAvatarService.cpp:20-25 | The shared core: caching before loading is what makes the recursion end (measure: stored ids not yet cached) and the cached set exact, with full lists, where every select is answered. A failing select leaves lists short, but nothing unreachable or undescribed in the cache. |
| `ChatAvatars.ChatAvatarService.LoadNamedAvatar` | src/stationchat/ChatAvatarService.cpp:18-24 | The same lines in the lookup by name: an id cached before gets a second object, any other id is loaded as above. |
| `ChatAvatars.ChatAvatarService.LoadFriendList` | src/stationchat/ChatAvatarService.cpp:431-455 | Rows delivered are loaded in order until a call throws; what they brought in was reachable from the stored rows. Where every select is answered, the friend rows, in order, are the friend list and every newcomer is complete. |
| `ChatAvatars.ChatAvatarService.LoadIgnoreList` | src/stationchat/ChatAvatarService.cpp:457-479 | The same for the ignore rows. |
| `ChatAvatars.ExactlyReached` | src/stationchat/ChatAvatarService.cpp:13-45 | If everything newly cached is complete and reachable, then nothing reachable is missing: newly cached and reachable are the same. |
| `ChatTables.ClosedContainsReach` | src/stationchat/ChatAvatarService.cpp:431-479 | White-path argument: a set with the source and every unvisited neighbour of its members contains all that is reachable through unvisited avatars. |
| `ChatAvatars.ChatAvatarService.LoadStoredAvatar` | src/stationchat/ChatAvatarService.cpp:302-335 | Where the select is answered, null exactly for an id that is not stored; otherwise, and whenever it is not null, a fresh object that describes the row, offline and with empty lists. A select that fails may do so before its row. |
| `ChatAvatars.ChatAvatarService.LoadStoredAvatarNamed` | src/stationchat/ChatAvatarService.cpp:260-300 | The same for the row whose name and address are the stored form of those asked for. |
| `ChatAvatars.ChatAvatarService.GetCachedAvatar` | src/stationchat/ChatAvatarService.cpp:225-237 | Finds the cached avatar of an id if there is one. |
| `ChatAvatars.ChatAvatarService.GetCachedAvatarNamed` | src/stationchat/ChatAvatarService.cpp:208-223 | Finds a cached avatar of a name and address if there is one. |
| `ChatAvatars.ChatAvatarService.CreateAvatar` | src/stationchat/ChatAvatarService.cpp:47-58 | A refused insert leaves cache and tables alone; an accepted one, as every one is that the schema has room for on a willing server, stores the row under a fresh id and caches one new avatar, after which ids are distinct and no list has changed. The cached avatars still describe their rows if and only if name and address survive storage. |
| `ChatAvatars.ChatAvatarService.LoginAvatar` | src/stationchat/ChatAvatarService.cpp:66-72 | The avatar is online and listed once; everybody else's mark and place stay. |
| `ChatAvatars.ChatAvatarService.LogoutAvatar` | src/stationchat/ChatAvatarService.cpp:74-82 | The avatar is offline and gone from the online list, whose other entries keep their order. |
| `ChatAvatars.ChatAvatarService.IsOnline` | src/stationchat/ChatAvatarService.cpp:481-489 | True exactly if the id is in the online list. |
| `ChatAvatars.ChatAvatarService.RemoveCachedAvatar` | src/stationchat/ChatAvatarService.cpp:239-246 | Among distinct ids the one-iterator erase takes out exactly the avatar. |
| `ChatAvatars.ChatAvatarService.DestroyAvatar` | src/stationchat/ChatAvatarService.cpp:60-64 | Row, cache entry and online mark go (or, if the database refuses, nothing does). If contacts were cached avatars and lists equalled rows before, each of the two still holds if and only if no other cached avatar names the destroyed one; in any case a list whose contacts are all cached still equals its rows. The schema and the lists' cleanness are kept. |
| `ChatAvatars.ChatAvatarService.DeleteAvatar` | src/stationchat/ChatAvatarService.cpp:408-429 | The row goes with all that name it, or nothing does; of the cached avatars only this one lacks its row. |
| `ChatAvatarRuns.DestroyFriend` | src/stationchat/ChatAvatarService.cpp:60-64 | The least input after which a list points to a destroyed avatar: two cached avatars, the first with the second as its only contact. |
| `ChatAvatars.ChatAvatarService.RemoveAsFriendOrIgnoreFromAll` | src/stationchat/ChatAvatarService.cpp:248-258 | If no statement is refused, every cached list is what it was without the avatar, nobody names it any more, and lists that equalled the tables still do. In any case lists only shrink and stay clean, rows of uncached avatars and the avatar table do not move, and the service invariant, the schema and closure are kept. Rows that do not name the avatar stay. |
| `ChatAvatars.ChatAvatarService.ForgetAndDestroy` | src/stationchat/ChatAvatarService.cpp:60-64 | Forgetting an avatar and then destroying it keeps the service invariant and the lists clean; if every contact was a cached avatar, it still is, and if the calls are accepted and every list equalled its rows, it still does: the order of calls in which destroying is safe. |
| `ChatAvatars.InStepWithout` | src/stationchat/ChatAvatarService.cpp:60-64 | The cascade takes rows from exactly those who name the destroyed avatar: the remaining lists equal the remaining rows if and only if nobody else named it. |
| `ChatAvatars.ClosedWithout` | src/stationchat/ChatAvatarService.cpp:60-64 | Taking an avatar out of a closed cache leaves it closed if and only if nobody else names it. |
| `ChatAvatars.ClosedInStepWithout` | src/stationchat/ChatAvatarService.cpp:60-64 | Whoever still points to cached avatars only has a list that equals its rows, if that was so before. |
| `ChatAvatars.NamedInRest` | src/stationchat/ChatAvatarService.cpp:60-64 | Seen from what is left in the cache, others named the destroyed avatar exactly if its id is in a list there. |
| `ChatAvatars.ChatAvatarService.PersistFriend` | src/stationchat/ChatAvatarService.cpp:86-111 | Adds the row, or nothing if the server refuses. |
| `ChatAvatars.ChatAvatarService.PersistIgnore` | src/stationchat/ChatAvatarService.cpp:113-133 | Adds the row, or nothing if the server refuses. |
| `ChatAvatars.ChatAvatarService.RemoveFriend` | src/stationchat/ChatAvatarService.cpp:135-156 | Deletes the rows of the pair, or nothing if the server refuses. |
| `ChatAvatars.ChatAvatarService.RemoveIgnore` | src/stationchat/ChatAvatarService.cpp:158-179 | Deletes the rows of the pair, or nothing if the server refuses. |
| `ChatAvatars.ChatAvatarService.UpdateFriendComment` | src/stationchat/ChatAvatarService.cpp:181-206 | Rewrites the comment of the pair's rows, or nothing if the server refuses. |
| `ChatDatabase.Database.InsertAvatar` | extras/init_database.sql:4-12 | Accepted inserts get a fresh 32-bit id and a name and address no other row carries; the schema is kept. |
| `ChatDatabase.Database.DeleteAvatar` | extras/init_database.sql:88-106 | Deleting an avatar cascades to all friend and ignore rows that name it; the schema is kept. |
| `ChatAvatars.ChatAvatar.AddFriend` | src/stationchat/ChatAvatar.cpp:21-28 | The lists stay clean: no null, no id twice, nobody both friend and ignored; the friend is appended and any ignore entry dropped. If the lists equalled the stored rows, they still do if and only if no statement was refused and the comment survives storage (or nothing was to be done); a server that refuses only what the schema forbids refuses nothing then, if both avatars are stored. Other avatars' rows and the schema are kept. |
| `ChatAvatars.ChatAvatar.RemoveFriend` | src/stationchat/ChatAvatar.cpp:30-39 | Exactly the friend goes; lists and tables still agree if and only if the statement was accepted. |
| `ChatAvatars.ChatAvatar.UpdateFriendComment` | src/stationchat/ChatAvatar.cpp:41-49 | Exactly that friend's comment changes; agreement with the tables is kept if and only if the text survives storage (or there is no such friend). |
| `ChatAvatars.ChatAvatar.AddIgnore` | src/stationchat/ChatAvatar.cpp:62-69 | As for friends, with the friend entry dropped. |
| `ChatAvatars.ChatAvatar.RemoveIgnore` | src/stationchat/ChatAvatar.cpp:71-80 | Exactly the ignore entry goes; agreement as above. |
| `ChatAvatars.ChatAvatar.IsFriend` | src/stationchat/ChatAvatar.cpp:51-60 | True exactly if the id is in the friend list. |
| `ChatAvatars.ChatAvatar.IsIgnored` | src/stationchat/ChatAvatar.cpp:82-91 | True exactly if the id is in the ignore list. |
| `ChatAvatarRuns.LoadedIsClean` | src/stationchat/ChatAvatarService.cpp:431-479 | Lists loaded from tables that obey the schema and the friend-or-ignored rule hold no null and no id twice, are disjoint, point into the cache and equal the rows. |
| `ChatRequests.RunFromStart` | src/stationchat/protocol/Protocol.cpp:437-492 | A new service over any tables that obey the schema and the friend-or-ignored rule, on a server that answers every select and refuses only what the schema forbids: for every list of requests (whose names and comments survive storage), every list whose contacts are cached equals the stored rows; if every destruction directly follows on forgetting the same id, all lists do and all contacts are cached; the tables and who is online are what the turns of the requests, one after the other, make of the first tables; and the run stops early only before a walk through contact lists after an untidy destruction, or at a request that goes on with a null pointer. |
| `ChatRequests.Run` | src/stationchat/protocol/Protocol.cpp:81-119 | The same from any good service and with selects that fail and statements that are refused, up to the first request that would walk contact lists while a contact is not cached or a select has failed, or that goes on with a null pointer. Always: cached ids stay distinct, every cached avatar describes its row, exactly the cached avatars marked online are in the online list, and the tables obey the schema. If no select failed and no statement was refused, a history of snapshots leads from the first state to the last, each a `Turn` of its request; lists equal rows wherever they are closed; and paired destructions keep them closed. |
| `ChatRequests.Serve` | src/stationchat/protocol/Protocol.cpp:81-119 | One request, its reads complete and its statements accepted, takes its effect and is a `Turn` on tables, online ids and cached ids. Contacts that were cached stay so unless it destroys an avatar that somebody left in the cache has in a list, and then they do not; right after forgetting the id nobody has. With complete reads it is undefined only where it goes on with a null pointer. A turn fixes the tables row by row (a login adds at most the row asked for, a destruction takes exactly the rows that name the avatar, forgetting only rows that name it, a contact call only rows of its pair), exactly who is online, and that nobody but the destroyed leaves the cache. |
| `ChatRequests.ServeLogin` | src/stationchat/protocol/Protocol.cpp:437-468 | The avatar of that name, created if there is none, is cached and online afterwards, nobody else's presence changes, at most one row is added, and those told of it are the online avatars that have it as a friend. |
| `ChatRequests.ServeLogout` | src/stationchat/protocol/Protocol.cpp:470-486 | The avatar of that id, loaded if need be, is offline afterwards and nobody else's presence changes; those who hear of it have it as a friend. The result is null, and the handler undefined, exactly if there is no such avatar. |
| `ChatRequests.SendFriendLoginUpdates` | src/stationchat/GatewayClient.cpp:173-188 | Exactly the online avatars that have the new one as a friend are told, in order, and it hears of exactly those of its friends that are online. |
| `ChatRequests.WatchersInOrder` | src/stationchat/GatewayClient.cpp:173-198 | Those told are the online avatars at exactly the places that have the avatar as a friend, from front to back. |
| `ChatRequests.OnlineFriendsInOrder` | src/stationchat/GatewayClient.cpp:182-187 | Those it hears of are the friends at exactly the places of its list that are online, from front to back. |
| `ChatRequests.ToldOnce` | src/stationchat/GatewayClient.cpp:173-198 | Nobody is told twice, or told of twice. |
| `ChatRequests.WatchersAreStored` | src/stationchat/GatewayClient.cpp:173-198 | In a settled service they are the online avatars with a stored friend row for it. |
| `ChatRequests.ServeDestroy` | src/stationchat/protocol/Protocol.cpp:192-211 | Unless refused, row, rows naming it, presence and cache entry go and nothing else; contacts stay cached if and only if nobody left in the cache has the id in a list, in particular if it was forgotten before. |
| `ChatRequests.ServeForget` | src/stationchat/ChatAvatarService.cpp:248-258 | Afterwards nobody cached has the id in a list, only rows of cached avatars that name the id have changed, and the cache has lost nobody; lists stay closed and, if they were, equal to the rows. A server that refuses only what the schema forbids refuses nothing here. |
| `ChatRequests.ServeContact` | src/stationchat/protocol/Protocol.cpp:81-119 | Source and target are looked up. An accepted call has taken effect on the list, as every call has that a settled service makes of a server that refuses only what the schema forbids. Whatever happens, no row changes but those of the pair; from lists that equal their rows, the pair's rows are afterwards what the call says, and nothing changes if one of the two does not exist. |
| `ChatTurns.ForgottenRows` | src/stationchat/ChatAvatarService.cpp:248-258 | If no list has the id and lists equal rows, no row of a cached avatar names it. |
| `ChatAvatarRuns.NewcomersFit` | src/stationchat/ChatAvatarService.cpp:13-45 | Avatars from complete reads keep the cache's lists clean, equal to the rows and pointing into the cache; whoever was cached before points to none of them. |
| `ChatAvatarRuns.ContactCached` | src/stationchat/ChatAvatar.cpp:21-91 | A contact call between cached avatars, refused or not, leaves every other entry of the lists as it was, in its order and with its comment, and every row but those of the one pair. If it goes through, both lists and rows say of the pair what the call says, with the comment of a new friend. All lists stay clean, closed and equal to the rows, and a server that refuses only what the schema forbids accepts the call, so that no result has to be asked. |
| `ChatContacts.ComputedApplies` | src/stationchat/ChatAvatar.cpp:21-91 | What the five calls do to the lists, stated of the lists before and after: without the avatar named they are the same; a new friend has the comment and is not ignored, an old one stays as it is; and so on for each call. |
| `ChatContacts.AppliedIsStored` | src/stationchat/ChatAvatarService.cpp:86-206 | If lists equalled their rows before and do after, the same has happened to the rows: whether the pair is stored as friend or ignored, with which comment, and no other row has changed. |
| `ChatSchema.PairRows` | src/stationchat/ChatAvatarService.cpp:86-206 | If tables without the rows of one pair are equal, every other row is stored in the one exactly if it is in the other. |
| `ChatSchema.SchemaWithoutAvatar` | extras/init_database.sql:88-106 | The cascade of a deleted avatar keeps the schema: names and pairs unique, rows between stored avatars. |
| `Text.RoundTrip` | src/stationapi/StringUtils.cpp:4-10 | Text comes back from its narrow form unchanged if and only if every unit is one that the (signed or unsigned) char widens to. |
| `Text.StorageRoundTrip` | src/stationapi/MariaDB.cpp:484-498 | Bound as a C string and read back, it is unchanged if and only if besides no unit is zero. |
| `Text.PlainSurvives` | src/stationapi/StringUtils.cpp:4-10 | Units from 1 to 0x7F survive on either kind of platform. |
| `Vectors.EraseIsRemoval` | src/stationchat/ChatAvatar.cpp:30-39 | Among distinct ids `erase(remove_if(...))` with one iterator is exact removal and keeps ids distinct. |
| `Vectors.EraseIsRemovalIff` | src/stationchat/ChatAvatarService.cpp:239-246 | In general it removes exactly the matches if and only if there is one match. |
| `Vectors.EraseDefined` | src/stationchat/ChatRoom.cpp:246-260 | The iterator may be erased exactly if a match exists; otherwise it is the end of the list. |
| `SectionTracker.RunContext.RunTest` | externals/catch/catch.hpp:6086-6092 | For every finite tree of sections with distinct sibling names: as many cycles run as the tree has leaves, cycle k enters and leaves exactly the sections on the path to leaf k in program order, and no tracker is closed in an illogical state. |
| `SectionTracker.RunContext.RunCycle` | externals/catch/catch.hpp:6088-6092 | One cycle executes one leaf more, and reports completion exactly after the last one. |
| `SectionTracker.RunContext.RunCurrentTest` | externals/catch/catch.hpp:6246-6274 | The body of the test executes the path to its next leaf and closes the test's tracker. |
| `SectionTracker.RunContext.RunSection` | externals/catch/catch.hpp:6136-6178 | An opened section executes the path to its own next leaf, changes nothing outside its subtree, and ends the cycle. |
| `SectionTracker.RunContext.RunSub` | externals/catch/catch.hpp:6136-6154 | A sub-section is entered exactly if it holds the leaf of this cycle; otherwise it is acquired without being opened. |
| `SectionTracker.TrackerContext.Acquire` | externals/catch/catch.hpp:5853-5870 | Finds or creates the child by name and opens it unless the cycle is over or the section is done. |
| `SectionTracker.TrackerContext.Close` | externals/catch/catch.hpp:5794-5823 | Closes what is still open below the tracker, from the current one upwards, and then the tracker itself, completing each that was a leaf or whose last child is complete; meeting one that is not open is the logic error and ends it. |
| `SectionTracker.ClosesIffOpen` | externals/catch/catch.hpp:5794-5823 | Closing goes through if and only if every tracker from the current one up to the closed one is open, and changes no other. |
| `SectionTracker.TrackerContext.OpenChild` | externals/catch/catch.hpp:5776-5782 | Marks the trackers above as running children, up to the first that already is. |
| `SectionTracker.TrackerContext.Open` | externals/catch/catch.hpp:5787-5792 | The tracker runs and becomes current, and its ancestors run children. |
| `SectionTracker.TrackerContext.StartRun` | externals/catch/catch.hpp:5922-5927 | A new run has a lone root. |
| `SectionTracker.ClosedRep` | externals/catch/catch.hpp:5794-5823 | Closing a tracker records that exactly one leaf more has been executed below it. |
| `SectionTree.PathsAreLeafPaths` | externals/catch/catch.hpp:5661-5871 | The enumerated paths are exactly the chains from the test to a section without sub-sections. |
| `SectionTree.PathsDistinct` | externals/catch/catch.hpp:5661-5871 | No two cycles take the same path. |
| `SectionTree.VisitInjective` | externals/catch/catch.hpp:6136-6178 | The events of a cycle determine its path. |
| `SectionTree.VisitShape` | externals/catch/catch.hpp:6136-6178 | A cycle enters the sections of its path from the outermost one and leaves them in reverse order. |
| `PreparedStatement.Statement.constructor` | src/stationapi/MariaDB.cpp:378-456 | The scanner's segments, placeholder indices and name table are those of the declaratively cut text; every binding starts unbound, one for each distinct name. |
| `PreparedStatement.Statement.RenderQuery` | src/stationapi/MariaDB.cpp:266-302 | For every binding the query is the text with each placeholder outside literals, and nothing else, replaced by the value of its name: one binding serves all occurrences, unbound names become NULL. Each value reads as a literal of what is bound to the number of its name. |
| `PreparedStatement.Statement.ScanStep` | src/stationapi/MariaDB.cpp:400-448 | One round of the scanner: a quote, a maximal placeholder or another character; what is cut so far and the cut of the rest still join to the cut of the whole. |
| `PreparedStatement.ReadName` | src/stationapi/MariaDB.cpp:416-426 | The longest run of name characters. |
| `PreparedStatement.Statement.AddPlaceholder` | src/stationapi/MariaDB.cpp:428-443 | A known name keeps its number, a new one gets the next number and a fresh binding. |
| `SqlText.WeaveIsSubstitution` | src/stationapi/MariaDB.cpp:266-302 | Segments and values in turn are the text with every placeholder substituted, for every value function. |
| `SqlText.ScanIsLossless` | src/stationapi/MariaDB.cpp:391-455 | Putting every name back with its `@` gives the text back. |
| `SqlText.ScanFindsPlaceholders` | src/stationapi/MariaDB.cpp:397-448 | The cut has no name if and only if the text has no placeholder (an `@` behind an even number of quotes with a name character after it). |
| `SqlText.PrepareAgain` | src/stationapi/MariaDB.cpp:397-448 | A text filled with inert values has no placeholder and is one segment if and only if no value that starts like a name follows a segment ending in `@`. |
| `PreparedStatement.RenderedAgain` | src/stationapi/MariaDB.cpp:250-302 | Preparing a rendered query again yields one segment and no placeholder if and only if no value that starts like a name was put right behind an `@`, for texts whose escaped form stays inside its quotes. |
| `PreparedStatement.RenderedAnyAgain` | src/stationapi/MariaDB.cpp:250-302 | For any values and any escaping: if and only if a scan that passes from segment to value to segment, carrying its quote state along, never meets a name character behind an `@` outside literals. |
| `PreparedStatement.RenderedTextsAgain` | src/stationapi/MariaDB.cpp:233-302 | With an escape function that puts backslashes, and texts whose quotes are paired: if and only if no text used has an `@` in front of a name character behind an odd number of quotes, and no value that starts like a name goes right behind an `@`. The condition is on the texts as they are bound. |
| `PreparedStatement.RenderedRawAgain` | src/stationapi/MariaDB.cpp:233-302 | With that escape function and any texts: rendering the texts without any escaping would meet a placeholder under exactly the same conditions, so that the check can be made on what is bound. |
| `PreparedStatement.TameStaysInside` | src/stationapi/MariaDB.cpp:233-248 | A text escaped with backslashes stays inside its quotes if and only if its quotes are paired and no `@` in it is exposed: the escaping makes no difference. |
| `SqlText.EscapeIsInvisible` | src/stationapi/MariaDB.cpp:397-448 | The scanner comes out of the escaped text in the state in which it comes out of the text, and meets a placeholder in the one exactly if it does in the other. |
| `SqlText.InsideIsClean` | src/stationapi/MariaDB.cpp:397-448 | Between quotes a text holds no placeholder if and only if none of its `@` has an odd number of quotes in front and a name character behind it. |
| `SqlText.PrepareLevelAgain` | src/stationapi/MariaDB.cpp:397-448 | A text filled with values of paired quotes is one segment if and only if every value is clean in itself and none that starts like a name follows an `@`. |
| `PreparedStatement.NumberBehindAt` | src/stationapi/MariaDB.cpp:266-302 | The input for the first condition: 5 bound to `@@a` renders as `@5`, which is a placeholder. |
| `PreparedStatement.ApostropheOpensLiteral` | src/stationapi/MariaDB.cpp:233-248 | The input for the second: an apostrophe escaped with a backslash lets the scanner leave a literal that follows, so that an `@` in it counts. |
| `PreparedStatement.ValueIsSafe` | src/stationapi/MariaDB.cpp:233-264 | A rendered value keeps quote parity and holds no placeholder if and only if its escaped text stays inside its quotes (always, for other kinds); it starts like a name exactly for NULL, non-negative integers and blobs. |
| `PreparedStatement.NumbersDiffer` | src/stationapi/MariaDB.cpp:428-437 | Different names have different bindings. |
| `PreparedStatement.FormatBlob` | src/stationapi/MariaDB.cpp:250-264 | A literal that reads as the bytes, in hexadecimal digits behind `0x`, or empty quotes behind `X`. |
| `PreparedStatement.BlobReadsBack` | src/stationapi/MariaDB.cpp:250-264 | A reader of SQL literals gets the bytes back from the whole literal. |
| `PreparedStatement.RenderValue` | src/stationapi/MariaDB.cpp:276-294 | The text reads as a literal of what was bound: NULL exactly for null or unbound, a signed decimal number, the bytes, or a quoted text of what the escape function made; without a handle a text goes out as it is. |
| `PreparedStatement.ValueReadsBack` | src/stationapi/MariaDB.cpp:233-264 | The same for every binding. |
| `PreparedStatement.TextReadsBack` | src/stationapi/MariaDB.cpp:233-248 | With an escape function that puts backslashes, undoing the escapes gives the text that was bound, and no quote in it ends the literal. |
| `SqlLiteral.NumberReadsBack` | src/stationapi/MariaDB.cpp:282-284 | Every integer, negative ones included, reads back from its decimal text. |
| `PreparedStatement.NextNumber` | src/stationapi/MariaDB.cpp:428-443 | A name that is new gets the next number, and the others keep theirs. |
| `PreparedStatement.Statement.BindParameterIndex` | src/stationapi/MariaDB.cpp:458-471 | The number of the name, with or without `@`; zero exactly if the statement has no such name. |
| `PreparedStatement.Statement.BindInt` | src/stationapi/MariaDB.cpp:473-482 | Sets exactly the binding of a valid index; any other index is an error and changes nothing. |
| `PreparedStatement.Statement.BindText` | src/stationapi/MariaDB.cpp:484-501 | The same; a null pointer binds NULL, a negative length the whole text, another length that much of it. |
| `PreparedStatement.Statement.BindBlob` | src/stationapi/MariaDB.cpp:503-521 | The same for bytes, with a negative length for none. |
| `StatementCursor.MariaDBStatement.Step` | src/stationapi/MariaDB.cpp:523-597 | The fields move as the three-phase protocol says (idle, handing out rows, finished). Without a connection nothing changes but the error. A query goes out exactly if none has been executed on this handle, and the reply decides: refused or not to be stored is an error that leaves the statement idle, no table is done, a stored result is its first row or done. Otherwise the next row is handed out, or done. The current row is the last one fetched and always has one length for each column. |
| `StatementCursor.SteadyRun` | src/stationapi/MariaDB.cpp:523-597 | On an unchanged handle a stored result of n rows gives ROW n times in order and then DONE for ever, with the query sent once; outages in between give errors and change nothing. |
| `StatementCursor.ChangedHandleRestarts` | src/stationapi/MariaDB.cpp:532-537 | A different handle makes any statement start over from row one. |
| `StatementCursor.SentWhenNeeded` | src/stationapi/MariaDB.cpp:539-580 | In every run a query is sent exactly if a connection is found and the statement is idle or was executed on another handle; a failed execution is retried by the next step. |
| `StatementCursor.ReplyDecides` | src/stationapi/MariaDB.cpp:539-580 | In every run a step that sends a query returns what the reply calls for: an error and an idle statement, done and finished, or rows. |
| `StatementCursor.RefusedRun` | src/stationapi/MariaDB.cpp:545-565 | As long as the server refuses the query or its result cannot be stored, every step is an error, and every step that finds a connection sends the query once more. |
| `StatementCursor.NoTableRun` | src/stationapi/MariaDB.cpp:577-586 | A query without a table is done at once, and on its handle done for ever, without being sent again. |
| `StatementCursor.MariaDBConnection.EnsureConnection` | src/stationapi/MariaDB.cpp:217-231 | A handle that answers is kept; otherwise the result of reconnecting takes its place. |
| `StatementCursor.MariaDBStatement.ColumnText` | src/stationapi/MariaDB.cpp:627-636 | A value exactly if there is a current row, the column is in range and not NULL; accesses stay in range. |
| `StatementCursor.MariaDBStatement.ColumnBytes` | src/stationapi/MariaDB.cpp:649-654 | The length of that value, zero otherwise. |
| `ConnectionString.ParseConnectionString` | src/stationapi/MariaDB.cpp:94-175 | The parse loop computes what the two syntaxes mean for the trimmed text. |
| `ConnectionStringLimits.UriReadsBackIff` | src/stationapi/MariaDB.cpp:98-142 | Parsing a printed URI gives the same fields if and only if no field holds a character that ends it (and the database name does not end in blanks). |
| `ConnectionStringLimits.PairsReadBackIff` | src/stationapi/MariaDB.cpp:144-175 | Parsing printed key=value pairs gives the same fields if and only if no value holds a semicolon or outer blanks; an empty host leaves the default. |
| `ConnectionString.UriReadsBack` | src/stationapi/MariaDB.cpp:98-142 | The sufficient half, for either scheme. |
| `ConnectionString.JoinReadsBack` | src/stationapi/MariaDB.cpp:144-175 | A printed list of clean pairs is applied exactly, in order, whatever the keys. |
| `ConnectionString.PairsReadBack` | src/stationapi/MariaDB.cpp:144-175 | The sufficient half for the six fields. |
| `ConnectionString.PortReadsBack` | src/stationapi/MariaDB.cpp:137 | A 32-bit port survives its decimal text. |
| `ConnectionStringLimits.PairsKeepFields` | src/stationapi/MariaDB.cpp:144-175 | Whatever text is parsed, no field comes out with a semicolon or outer blanks. |
| `ConnectionStringForms.PartsReadBack` | src/stationapi/MariaDB.cpp:98-142 | A URI with or without credentials, password, port and database means what its parts say and the defaults for those that are missing; an empty host counts as missing unless a port follows, and an empty port is the default. |
| `ConnectionStringForms.UriMeans` | src/stationapi/MariaDB.cpp:98-142 | The same behind either scheme. |
| `ConnectionStringForms.PortForms` | src/stationapi/MariaDB.cpp:136-138 | A port may have spaces and a sign in front and anything behind; its digits are cut to 32 bits, after a minus taken from 2^64 first, and throw from 2^64 on. |
| `ConnectionStringForms.PortWithoutNumber` | src/stationapi/MariaDB.cpp:136-138 | A port text without any digit throws. |
| `ConnectionStringForms.KeySpellings` | src/stationapi/MariaDB.cpp:155-171 | Which field each of the eleven keys sets; an empty host or port sets none, and any other key is passed over. |
| `ConnectionStringForms.AnyCase` | src/stationapi/MariaDB.cpp:144-153 | Keys count in upper and lower case and between blanks, values between blanks; a token without an equals sign is passed over. |
| `Decimal.NaturalValue` | src/stationapi/MariaDB.cpp:283 | The digits of a number are worth the number. |
| `ChatRooms.ChatRoom.constructor` | src/stationchat/ChatRoom.cpp:10-27 | A new room has its creator as the only administrator and moderator and is otherwise empty. |
| `ChatRooms.ChatRoom.EnterRoom` | src/stationchat/ChatRoom.cpp:49-67 | Each code is thrown exactly if its check fails and none before it does: a wrong password, then a ban, then presence, then privacy; only an admitted avatar is appended. The lists refine the set machine, with its outcome and its ban rows, and keep ids distinct. |
| `ChatRooms.ChatRoom.LeaveRoom` | src/stationchat/ChatRoom.cpp:77-84 | Exactly the avatar goes; an absent one changes nothing. The lists refine the set machine, with its outcome and its ban rows, and keep ids distinct. |
| `ChatRooms.ChatRoom.KickAvatar` | src/stationchat/ChatRoom.cpp:176-186 | Only a moderator removes, and only an occupant. Each outcome is given exactly if the checks, over the lists, call for it. The lists refine the set machine, with its outcome and its ban rows, and keep ids distinct. |
| `ChatRooms.ChatRoom.AddAdministrator` | src/stationchat/ChatRoom.cpp:188-200 | Only the creator appoints; appointing again changes nothing; a persistent room also stores a ban row. Each outcome is given exactly if the checks, over the lists, call for it. The lists refine the set machine, with its outcome and its ban rows, and keep ids distinct. |
| `ChatRooms.ChatRoom.AddModerator` | src/stationchat/ChatRoom.cpp:202-216 | Only the creator appoints, once; a persistent room also stores a ban row. Each outcome is given exactly if the checks, over the lists, call for it. The lists refine the set machine, with its outcome and its ban rows, and keep ids distinct. |
| `ChatRooms.ChatRoom.AddBanned` | src/stationchat/ChatRoom.cpp:218-232 | Only a moderator bans, once; nobody is evicted; a persistent room stores the row. Each outcome is given exactly if the checks, over the lists, call for it. The lists refine the set machine, with its outcome and its ban rows, and keep ids distinct. |
| `ChatRooms.ChatRoom.AddInvite` | src/stationchat/ChatRoom.cpp:234-244 | Only a moderator invites, once. Each outcome is given exactly if the checks, over the lists, call for it. The lists refine the set machine, with its outcome and its ban rows, and keep ids distinct. |
| `ChatRooms.ChatRoom.RemoveAdministrator` | src/stationchat/ChatRoom.cpp:246-260 | Exactly the administrator goes; defined only if there is one to erase (or the list is empty). Each outcome is given exactly if the checks, over the lists, call for it. The lists refine the set machine, with its outcome and its ban rows, and keep ids distinct. |
| `ChatRooms.ChatRoom.RemoveModerator` | src/stationchat/ChatRoom.cpp:262-277 | Exactly the moderator goes. Each outcome is given exactly if the checks, over the lists, call for it. The lists refine the set machine, with its outcome and its ban rows, and keep ids distinct. |
| `ChatRooms.ChatRoom.RemoveBanned` | src/stationchat/ChatRoom.cpp:279-294 | Exactly the ban and, in a persistent room, its row go. Each outcome is given exactly if the checks, over the lists, call for it. The lists refine the set machine, with its outcome and its ban rows, and keep ids distinct. |
| `ChatRooms.ChatRoom.RemoveInvite` | src/stationchat/ChatRoom.cpp:296-307 | Exactly the invitation goes. Each outcome is given exactly if the checks, over the lists, call for it. The lists refine the set machine, with its outcome and its ban rows, and keep ids distinct. |
| `ChatRooms.RunRoom` | src/stationchat/ChatRoom.cpp:49-307 | A room taken from its creation through any history the code defines: lists duplicate-free, their ids the sets the rules reach, every outcome the rules' one. |
| `RoomRules.FirstCheckDecides` | src/stationchat/ChatRoom.cpp:49-307 | Every call is refused for the first check that fails, in the order of the source, and not if none does. |
| `RoomRules.RoleStep` | src/stationchat/ChatRoom.cpp:49-307 | Nobody gains or loses a role, an invitation, a ban, a place or a ban row but by the calls that may give or take it. |
| `RoomRules.History` | src/stationchat/ChatRoom.cpp:10-307 | After every history, an avatar holds a role if and only if it had it from the start or an authorised call gave it, and no authorised call has taken it since. |
| `RoomRules.OccupantsMetTheChecks` | src/stationchat/ChatRoom.cpp:49-67 | An avatar is inside if and only if an entry of its met the password, ban and privacy checks as they stood then and it has not left or been kicked since. |
| `RoomRules.AuthorityComesFromTheCreator` | src/stationchat/ChatRoom.cpp:176-307 | Every successful kick, ban, invitation and pardon was made by the creator or by somebody the creator had made moderator and not yet unmade. |
| `RoomRules.BannedStaysOut` | src/stationchat/ChatRoom.cpp:54-56 | Whoever is banned and outside stays banned and outside until pardoned. |
| `RoomRules.BanRowsStep` | src/stationchat/ChatRoom.cpp:188-232 | In a persistent room whose ban table matched, a call keeps the match if and only if no ban or pardon is turned down by the database and no appointment of somebody not banned is stored. |
| `RoomRules.BanRowsHistory` | src/stationchat/ChatRoom.cpp:188-294 | The ban table of a persistent room holds the banned and, beside them, exactly those appointed since and not pardoned. |
| `RoomRules.BanRowsMatch` | src/stationchat/ChatRoom.cpp:188-294 | It equals the bans if and only if every such appointee is banned, so on every history without appointments. |
| `RoomRules.AppointmentWritesBanRow` | src/stationchat/ChatRoom.cpp:202-216 | The least history in which it does not: one appointment. |
| `RoomRules.AbsentAdministrator` | src/stationchat/ChatRoom.cpp:246-260 | The least input that is undefined: removing somebody who is no administrator from a room that has one. |
| `ChatRooms.ChatRoom.GetAvatarIds` | src/stationchat/ChatRoom.cpp:86-96 | The ids of the occupants that do not ignore the sender, in order. |
| `ChatRooms.ListeningIds` | src/stationchat/ChatRoom.cpp:86-96 | Exactly the occupants that do not ignore the sender are told, nobody twice. |
| `ChatRooms.ListeningInOrder` | src/stationchat/ChatRoom.cpp:86-96 | They are the occupants at exactly those places, from front to back. |
| `ChatRooms.ChatRoom.GetConnectedAddresses` | src/stationchat/ChatRoom.cpp:98-114 | Every address once, where it occurs first. |
| `ChatRooms.ChatRoom.GetRemoteAddresses` | src/stationchat/ChatRoom.cpp:116-132 | The connected addresses, in their order, without the creator's. |
| `ChatRooms.ExceptInOrder` | src/stationchat/ChatRoom.cpp:116-132 | Leaving out one address leaves the others in their places. |
| `ChatRooms.FirstOccurrencesFacts` | src/stationchat/ChatRoom.cpp:98-114 | The same addresses as the occupants', no two equal, in the order of first occurrence. |
| `WireFormat.ItemReadsBack` | src/stationapi/Serialization.hpp:9-95 | Every value written reads back with whatever follows left over; an over-long string comes back as its prefix of length modulo 2^16, a wide one modulo 2^32, and the framing stays in step. |
| `WireFormat.RecordReadsBack` | src/stationapi/Serialization.hpp:9-95 | So does every record of such values, by its field order. |
| `WireFormat.ListReadsBack` | src/stationchat/ChatRoom.hpp:136-169 | A counted list reads back as far as its 32-bit count reaches; records beyond it stay in front of the rest. |
| `WireFormat.ListStaysInStep` | src/stationchat/ChatRoom.hpp:136-169 | The framing of a list stays in step if and only if it is shorter than 2^32. |
| `WireFormat.MagnitudeReadsBack` | src/stationapi/Serialization.hpp:9-19 | Little-endian bytes are worth the integer. |
| `WireFormat.ByteAt` | src/stationapi/Serialization.hpp:9-19 | Byte k of an integer is its k-th digit to the base of 256. |
| `WireFormat.WideTextBytes` | src/stationapi/Serialization.hpp:85-95 | Byte by byte: four for the length, then two for each unit, the lower one first. |
| `WireFormat.TextBytes` | src/stationapi/Serialization.hpp:62-68 | Byte by byte: two for the length, then the text. |
| `WireRecords.RoomReadsBack` | src/stationchat/ChatRoom.hpp:120-170 | A room record whose seven lists are shorter than 2^32 reads back by field order alone, whatever follows it; over-long texts come back cut and in step. |
| `WireRecords.FittingRoomReadsBack` | src/stationchat/ChatRoom.hpp:120-170 | Without over-long texts it reads back whole. |
| `WireRecords.RoomsAreUnambiguous` | src/stationchat/ChatRoom.hpp:120-170 | Rooms that look alike on the wire agree in every field and, online marks aside, in every listed avatar, and what follows them is the same. |
| `WireLayout.RoomLayout` | src/stationchat/ChatRoom.hpp:120-170 | Of any room whose lists are shorter than 2^32, item by item: creator name, address and id, room name, topic, prefix, address and password, attributes, maximum size, id, creation time and node level; then occupants, administrators, moderators, temporary moderators, banned, invited and voice. |
| `WireLayout.AvatarLayout` | src/stationchat/ChatAvatar.hpp:104-116 | Item by item: avatar id, user id, name, address, attributes, login location, server, gateway and the ids of both. |
| `WireLayout.FriendLayout` | src/stationchat/ChatAvatar.hpp:119-125 | Item by item: name, address, comment, online mark. |
| `WireLayout.IgnoreLayout` | src/stationchat/ChatAvatar.hpp:127-131 | Item by item: name, address. |
| `WireRecords.AvatarItemsSay` | src/stationchat/ChatAvatar.hpp:104-116 | Avatars have the same record if and only if they agree in everything but the online mark. |
| `WireStream.Stream.WriteRoom` | src/stationchat/ChatRoom.hpp:120-170 | The calls append exactly the room's bytes, and a reader that knows the kinds only gets the thirteen fields and the seven lists out of them, each in its place. |
| `WireStream.Stream.WriteAvatar` | src/stationchat/ChatAvatar.hpp:104-116 | A reader gets the ten fields, each in its place. |
| `WireStream.Stream.WriteFriend` | src/stationchat/ChatAvatar.hpp:119-125 | A reader gets name, address, comment and a 16-bit mark that is one exactly if the friend is online. |
| `WireStream.Stream.WriteIgnore` | src/stationchat/ChatAvatar.hpp:127-131 | A reader gets name and address. |
| `WireStream.Stream.WriteWideString` | src/stationapi/Serialization.hpp:85-95 | The loop appends the cut text behind its 32-bit length. |
| `WireStream.Stream.WriteString` | src/stationapi/Serialization.hpp:62-68 | The cut text behind its 16-bit length. |
| `WireStream.Stream.WriteBool` | src/stationapi/Serialization.hpp:44-48 | One byte, 0 or 1. |
| `WireStream.Stream.ReadWideString` | src/stationapi/Serialization.hpp:72-83 | Succeeds exactly if the bytes suffice, with the decoder's value and rest; so it undoes the write. |
| `WireStream.Stream.ReadString` | src/stationapi/Serialization.hpp:52-60 | The same for narrow strings. |
| `WireStream.Stream.ReadInteger` | src/stationapi/Serialization.hpp:9-13 | The same for unsigned integers; a short stream is drained and fails. |
| `WireStream.Stream.ReadSigned` | src/stationapi/Serialization.hpp:9-13 | The same for signed integers. |
| `WireStream.Stream.ReadBool` | src/stationapi/Serialization.hpp:37-42 | True exactly for a byte that is not zero. |
| `WireStream.Stream.ReadIntegerAt` | src/stationapi/Serialization.hpp:106-110 | The value at the offset; the position moves behind it. |
| `WireStream.Stream.PeekInteger` | src/stationapi/Serialization.hpp:113-119 | The reading position and state are kept if and only if the value is there (or the stream had failed before). |
| `HexDump.Dump` | src/stationapi/StreamUtils.cpp:9-59 | Ends in bounds, with the rows of the bytes the loop gets to see, if and only if the 16-bit limit is not its greatest value; otherwise the loop variable wraps and the buffer is left. |
| `HexDump.DumpIsComplete` | src/stationapi/StreamUtils.cpp:9-59 | The dump ends and its hex columns decode to the whole buffer if and only if the buffer has at most 32766 full rows. |
| `HexDump.DumpSaysDumped` | src/stationapi/StreamUtils.cpp:16-51 | The hex columns always decode to exactly the bytes the loop saw, in order. |
| `HexDumpLines.DumpIsLabelled` | src/stationapi/StreamUtils.cpp:25-51 | Line by line: the label is worth 16 times the line's number, the hex columns are its bytes, and the text column shows each of them as itself if it is printable and as a dot otherwise, with blanks behind the end. |
| `HexDump.PrintRows` | src/stationapi/StreamUtils.cpp:16-51 | The row loop with its wrapping counter. |
| `HexDump.PrintCell` | src/stationapi/StreamUtils.cpp:34-48 | One cell and its glyph: the byte at its place, or blanks behind the end. |
| `Generators.RunTest` | externals/catch/catch.hpp:6084-6095 | From a test without generators, which register where a run first uses them: running it until no generator moves shows each tuple of indices at exactly one turn, as many turns as there are tuples, and every use of a generator sees its place in the tuple. |
| `TestCaseRun.RunTestCase` | externals/catch/catch.hpp:6084-6095 | The nested loops of a test case, for every tree of sections and every choice of generators used in them: there is one round for each tuple of generator indices, in which every leaf path runs once, in program order, and every generator used on the way shows its place in the tuple. Generators register where the first round comes to them, so each pair of a leaf and a tuple runs exactly once. |
| `TestCaseRun.TestRunner.RunRound` | externals/catch/catch.hpp:6086-6092 | One round of cycles: every leaf once, each use showing its generator's index; generators met for the first time join at zero and leave the others where they were. |
| `TestCaseRun.NothingNewInRound` | externals/catch/catch.hpp:7390-7399 | From the second round on nothing is registered, whichever leaf uses which generator. |
| `Generators.GeneratorsForTest.RunBody` | externals/catch/catch.hpp:7061-7065 | One run: every use gets the index of its generator; new generators stand behind the old ones at zero, the others where they were. |
| `Generators.NothingNew` | externals/catch/catch.hpp:7390-7399 | From the second run on nothing is registered. |
| `Generators.KnownOnce` | externals/catch/catch.hpp:7390-7399 | A name has one generator, whichever size later uses ask for. |
| `Generators.GeneratorsForTest.MoveNext` | externals/catch/catch.hpp:7401-7409 | The first generators that are at their last index start over and the next one moves on, if there is one; which is one move of the mixed-radix counter over all generators, and false exactly on wrap-around. |
| `Generators.GeneratorsForTest.GetGeneratorInfo` | externals/catch/catch.hpp:7390-7399 | A known name keeps its generator whatever size is asked for; a new one joins last at zero and leaves the counter where it was. |
| `Generators.GeneratorInfo.MoveNext` | externals/catch/catch.hpp:7365-7371 | The index advances or wraps; a size of zero counts as 2^64. |
| `Odometer.NextAddsOne` | externals/catch/catch.hpp:7401-7409 | A move adds one to the counter's value, or wraps from the last value to zeros and says so. |
| `Odometer.Counts` | externals/catch/catch.hpp:7359-7414 | For ever: after k moves from zeros the value is k modulo the product of the sizes, and a move reports false exactly when it completes a round. |
| `Odometer.VisitedExactlyOnce` | externals/catch/catch.hpp:7359-7414 | In a round, a tuple is the state after k moves if and only if k is its value. |
| `Odometer.TupleOfValue` | externals/catch/catch.hpp:7359-7414 | The value determines the tuple. |
| `Odometer.ValueOfTuple` | externals/catch/catch.hpp:7359-7414 | Every number below the product is the value of a tuple that fits. |
| `Odometer.AppendKeepsValue` | externals/catch/catch.hpp:7390-7399 | Appending a generator at zero keeps the value. |
| `TotalsBar.PrintTotalsDivider` | externals/catch/catch.hpp:10030-10051 | The bar fills the line, in the right colours, and shows a colour exactly for the counts that are not zero, provided the total does not wrap around; if it does, the line is filled modulo 2^64 only, and with a total of zero it says there were none. |
| `TotalsBar.WrappedTotal` | externals/catch/catch.hpp:10030-10048 | The input: 2^64 test cases give the bar of none. |
| `TotalsBar.BarWidths` | externals/catch/catch.hpp:10031-10039 | For any counts both loops end, at widths that add up, modulo 2^64, to one less than the console. If the total does not wrap, they truly do, without underflow, each positive exactly if its count is; while the products fit 64 bits, each is within four below and two above its exact share. They come from the rounded shares by adding to the last greatest one only, or by lowering the peaks. |
| `TotalsBar.Balance` | externals/catch/catch.hpp:10036-10039 | Ends for any widths, filling the line modulo 2^64; if the shares do not add up to 2^64, truly, and no width moves further than the sum was off. What is missing all goes to the last greatest share; what is too much is taken from the peaks, so that nothing lowered is more than one below any other. |
| `TotalsBar.MakeRatio` | externals/catch/catch.hpp:10018-10021 | At most the console width even where the product wraps; zero exactly for a zero count; the share rounded down, but not to nothing, where it does not wrap. |
| `TotalsBar.FindMax` | externals/catch/catch.hpp:10022-10029 | A greatest one, and of several the last. |
| `TotalsBar.Grow` | externals/catch/catch.hpp:10036-10037 | The last greatest width gains one, the others stay. |
| `TotalsBar.Shrink` | externals/catch/catch.hpp:10038-10039 | The last greatest width loses one, the others stay. |
| `TotalsBar.SumOfShares` | externals/catch/catch.hpp:10031-10035 | The rounded shares miss the console width by at most two. |
| `LevelConfig.CompressionIsFaithful` | externals/easyloggingpp/easylogging++.h:3101-3157 | For any list of distinct levels, every level that was set reads as it was set if and only if the global setting, wherever it stands, agrees with the first one; in particular if it comes first or not at all. |
| `LevelConfig.LateGlobalMovesLevel` | externals/easyloggingpp/easylogging++.h:3136-3157 | The least input that fails: info set to 1, then global to 2; info reads 2. |
| `LevelConfig.SetThenGet` | externals/easyloggingpp/easylogging++.h:3136-3157 | A level reads as just set unless the value equals the global one while the level holds another of its own. |
| `LevelConfig.GlobalValueDoesNotStick` | externals/easyloggingpp/easylogging++.h:3136-3157 | The least input that fails: info at 2 under a global 1 cannot be set to 1. |
| `LevelConfig.SetKeepsOthers` | externals/easyloggingpp/easylogging++.h:3136-3157 | Another level's value moves exactly if it has none of its own and the global one moves. |
| `LevelConfig.TypedConfigurations.SetValue` | externals/easyloggingpp/easylogging++.h:3136-3157 | The map of that type after one call; the maps of other types stay. |
| `LevelConfig.TypedConfigurations.UnsafeGetConfigByVal` | externals/easyloggingpp/easylogging++.h:3101-3116 | The level's own value, else the global one, else a default. |
| `LevelConfig.TypedConfigurations.Build` | externals/easyloggingpp/easylogging++.h:3159-3205 | Each type's map holds the settings of that type, applied in order, whatever stands between them; the map of file names stays empty, which is left to a loop of its own. |
| `LevelConfig.SettingsInOrder` | externals/easyloggingpp/easylogging++.h:3166-3203 | The settings of a type are its configurations, from front to back; of two types, millisecond width and performance tracking, all are global, whatever level they name. |
| `LevelConfig.AlwaysGlobal` | externals/easyloggingpp/easylogging++.h:3189-3195 | Of those two types every level reads the last configuration in the list. |
| `LevelConfig.LevelReads` | externals/easyloggingpp/easylogging++.h:3136-3157 | For any list of settings, levels repeated or not: a level reads the last setting of its own that was not the first of all and differed from the global value of the time, or else the global value, which is the last global setting or else the very first. |
| `LevelConfig.Reads` | externals/easyloggingpp/easylogging++.h:3166-3203 | So does a level of any other type, of the configurations of that type in the list. |
| `LevelConfig.GlobalMoves` | externals/easyloggingpp/easylogging++.h:3136-3157 | The global value moves exactly if the level is the global one or the first value of all counts for it. |
| `HitCounters.EveryNthIff` | externals/easyloggingpp/easylogging++.h:3381-3386 | Every n-th visit of a location, and no other, writes for ever, if and only if n is at most 100000. |
| `HitCounters.EveryNth` | externals/easyloggingpp/easylogging++.h:3431-3440 | For such n the k-th visit writes exactly if n divides k, although the counter is folded back at 100000. |
| `HitCounters.BeyondTheLimit` | externals/easyloggingpp/easylogging++.h:3381-3386 | Beyond, for every visit: 100001 writes on exactly the visits from the 100001st on, and any larger number never writes. |
| `HitCounters.OneBeyondTheLimit` | externals/easyloggingpp/easylogging++.h:3381-3386 | The least failing number: with 100001, visit 100002 writes. |
| `HitCounters.RunCalls` | externals/easyloggingpp/easylogging++.h:3431-3440 | However calls interleave and with whatever n they ask, a call fires exactly if its n divides the count its location has reached; which is every n-th visit if the location always asked with this n up to the limit, or with any changing n while its visits do not exceed the limit. |
| `HitCounters.RegisteredHitCounters.ValidateEveryN` | externals/easyloggingpp/easylogging++.h:3431-3440 | One more hit for the location, which is registered if new; no other counter moves. |
| `HitCounters.HitCounter.ValidateHitCounts` | externals/easyloggingpp/easylogging++.h:3381-3386 | Folds the count if it reached the limit, then adds one. |
| `Wildcard.WildCardMatch` | externals/easyloggingpp/easylogging++.h:1307-1329 | Loop and recursion accept a text if and only if it can be cut into one piece for each pattern character: anything for `*`, one character for `?`, the character itself otherwise. |

## Left out

- ChatRequests.Run: stops before a request that walks contact lists when a select has failed (a list may hold a null) or a contact has been destroyed (a list holds a pointer to freed memory), and at one that goes on with a null pointer; what the code does there is not defined. Names must be such as storage gives back; what a lookup or a creation with another name does is stated by `GetAvatarNamed` and `CreateAvatar`.
- ChatRequests.ServeLogin: a refused creation ends the handler (`CHECK_NOTNULL`), and joining or leaving rooms at login, logout and destruction is left to the room model.
- ChatRequests.ServeForget: no request of the protocol reaches the service call; it stands among the requests for runs that destroy safely.
- Text with a zero byte or NULL comments in rows that other programs wrote; ids from 2^31 on, which are bound as negative numbers.
- The SQL text of the services: statements have their intended effect on the tables. As written, adding an ignore row and updating a friend comment are malformed (src/stationchat/ChatAvatarService.cpp:115 and :184), the ignore table's name is a reserved word there, and storing a ban uses another dialect's insert and binds a name the statement does not have (src/stationchat/ChatRoomService.cpp:381-388); a server that always refuses is one of those the model allows.
- Collation: names compare as exact equality; the database compares without case.
- Identifying fields of avatars and rooms are constants; `SetAttributes`, `UpdateAvatar` and message counters are not modelled.
- Rooms loaded from storage start without any role; histories here start from the constructor. The room registry, `GetRoomSummaries` and `DestroyRoom` would add only searches.
- `maxRoomSize_` is never checked by the code, so no capacity property is claimed.
- Memory exhaustion while reading a huge announced length, and the value left behind by a read that fails.
- MariaDB.cpp: integer columns (`mariadb_column_int`), error texts, and a handle that reconnects by itself behind an unchanged pointer; null arguments of the C interface.
- Bind lengths beyond the buffer, which the caller must not pass.
- Catch: failing sections, exceptions, aborting, and index trackers; section trackers refer to each other by position in one list instead of by pointer.
- Catch: bodies whose sections or generators change from run to run for other reasons than the path taken; sections and generators of a cycle share no state, so a cycle makes its uses in one go.
- LevelConfig.TypedConfigurations.Build: does not model the second loop over the settings, whose `insertFile` opens log files and forces `ToFile` to false where that fails (externals/easyloggingpp/easylogging++.h:3206-3212 and :3275-3313), because opening files is outside.
- Easylogging++: registry locking, `validateAfterN`, `validateNTimes`, verbose-module rules around the glob matcher, and configurations read by reference.
- UDP transport, nodes, registrar protocol, `ChatEnums` tables, request handlers beyond what they do with avatars, and logging output: plumbing around the parts modelled.
- Weighted round-robin of gateways: its code is not part of the repository.
