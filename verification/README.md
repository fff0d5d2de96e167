# HLE class library core, modelled in Dafny

This project models the core of the HLE C# class library and proves
properties of it. Each module below stands for one source file.

- `Twitch` and `ClientSpec` model the Twitch chat client, `TwitchClient`.
  - The client's state is its connection flag, whether it logged in anonymously, the retained channel list, the joined-channel registry and the commands handed to the IRC connection.
  - `ClientSpec` gives one step function per operation. Each returns the new state and the exception thrown, if any.
  - `Twitch.TwitchClient` is a class whose methods are proved to change their fields exactly as those step functions say.
- `ChannelNames` models the channel-name validation pattern, the anonymous-login pattern and `FormatChannel`.
- `LeftChannel` parses a PART line into `LeftChannelArgs`.
- `RoomState` models the room state of a channel (`Channel`).
- `SpanQueue` is the FIFO queue over a caller-supplied buffer (`Queue<T>`).
- `CollectionHelper` covers these span utilities: `Replace`, `IndicesOf`, `Split`, `FillAscending`, `Randomize`, `RandomCollection` and `Random`.
- `SmallPool` models the small-array buckets of the array pool (`SmallArrayPool`).
- `Rented` models the rented-array handle (`RentedArray<T>`).
- `MemoryHelpers` covers the stack-allocation size test and pointer alignment.
- `Time` covers the `Day` time unit.
- `ObjectMarshal` holds the object, string and array size formulas.
- `Ints` supplies the fixed-width integer types and wrap-around.
- `Wrappers` supplies `Option` and `Result`.

A thrown exception is modelled as a `Failure`, or as an `Option` error, carrying a datatype that names the exception.

## Model

| member | source | states |
|---|---|---|
| ChannelNames.LowerChar | HLE/Twitch/TwitchClient.cs:490 | `ToLowerInvariant` on one character: an ASCII capital moves to its lower-case letter; every other character is kept |
| ChannelNames.Lower | HLE/Twitch/TwitchClient.cs:490 | Lower-casing keeps the length and maps each character by `LowerChar` |
| ChannelNames.StripPrefix | HLE/Twitch/TwitchClient.cs:496-499 | At most one leading '#' is removed; any other text is returned unchanged |
| ChannelNames.AnonymousUsernameIsAnonymous | HLE/Twitch/TwitchClient.cs:93-95 | The anonymous constructor's login name "justinfan123" matches the anonymous-login pattern |
| ChannelNames.AnonymousLoginShape | HLE/Twitch/TwitchClient.cs:93 | A login the anonymous pattern `^justinfan[0-9]+$` (ignoring case) accepts is "justinfan" in any case followed by digits, the last of which may be one '\n' that the .NET `$` lets through |
| ChannelNames.ChannelPatternAsWrittenShape | HLE/Twitch/TwitchClient.cs:92 | A text the channel pattern `^#?\w{3,25}$` accepts has 3 to 27 characters: an optional '#' or a word character first, word characters in between, and a word character or one '\n' last |
| ChannelNames.Normalise | HLE/Twitch/TwitchClient.cs:481-501 | Once the pattern matched, the result is '#' followed by the lower-cased name (hashtag form), or the lower-cased name alone; whether the input had a '#' does not matter |
| ChannelNames.FormatChannelStrict | HLE/Twitch/TwitchClient.cs:92 | The corrected validation (`\z` in place of `$`) throws exactly when the whole text is not an optional '#' followed by 3 to 25 word characters, and wherever it succeeds it agrees with `FormatChannel` |
| ChannelNames.FormatChannelAcceptsLineFeed | HLE/Twitch/TwitchClient.cs:92 | "abc\n" passes `FormatChannel` and comes out as "#abc\n"; the corrected check rejects it |
| ChannelNames.FormatChannel | HLE/Twitch/TwitchClient.cs:474-502 | Throws `FormatException` exactly when the .NET pattern of line 92, `^#?\w{3,25}$`, fails; that pattern also accepts an otherwise valid name followed by one '\n'. Otherwise gives the lower-cased name, line feed kept, with exactly one '#' (hashtag form) or none |
| ChannelNames.LowerWordName | HLE/Twitch/TwitchClient.cs:490 | Lower-casing a word name gives a word name that does not start with '#', and lower-casing again changes nothing |
| ChannelNames.FormatChannelIdempotent | HLE/Twitch/TwitchClient.cs:474-502 | Formatting a formatted name succeeds and gives the same name, a name kept with its final '\n' included |
| ChannelNames.FormattedShape | HLE/Twitch/TwitchClient.cs:474-502 | A formatted name is a name that passes the corrected check and holds no line feed, followed by one '\n' exactly when the input had a final '\n' that only the .NET `$` let through |
| ChannelNames.HashtagFormsAgree | HLE/Twitch/TwitchClient.cs:481-501 | Both forms of `FormatChannel` succeed or fail together, and the hashtag form is '#' followed by the other form |
| ChannelNames.FormattedIsClean | HLE/Twitch/TwitchClient.cs:474-502 | A name formatted by the corrected check is '#' (hashtag form) followed by 3 to 25 word characters, none upper-case, and holds no line feed |
| ChannelNames.FormatChannelInto | HLE/Twitch/TwitchClient.cs:474-502 | Writing into a scratch buffer of `channel.Length + 1` chars fails exactly when `FormatChannel` fails and then leaves the buffer alone; otherwise the returned length fits the buffer and the written prefix is the formatted name |
| ChannelNames.WriteNormalised | HLE/Twitch/TwitchClient.cs:481-501 | Once the pattern has matched, the four write paths fill a prefix of the buffer with exactly the normalised name, and that prefix fits the buffer |
| ClientSpec.FindByName | HLE/Twitch/TwitchClient.cs:192 | A lookup by name returns an entry with that name, or nothing exactly when no entry has it |
| ClientSpec.FindById | HLE/Twitch/TwitchClient.cs:219 | A lookup by id returns an entry with that id, or nothing exactly when no entry has it |
| ClientSpec.RemoveByName | HLE/Twitch/TwitchClient.cs:338 | After a removal by name, the registry holds exactly the entries with other names |
| ClientSpec.UpdateChannels | HLE/Twitch/TwitchClient.cs:427 | `Channels.Update` grows the registry by one exactly when no channel has the message's name, and keeps the name, id and prefixed name of every existing entry in its place |
| ClientSpec.UpdateChannelsLookup | HLE/Twitch/TwitchClient.cs:425-429 | After a ROOMSTATE update, the channel holds the message's flags. It keeps its id, or is added when it was new. Every other channel looks up as before |
| ClientSpec.RemoveFirst | HLE/Twitch/TwitchClient.cs:337 | Removing from the retained list drops one occurrence of the name (as multisets), or changes nothing when the name is absent |
| ClientSpec.Send | HLE/Twitch/TwitchClient.cs:181-195 | The checks come in order: not connected, then anonymous, then an unknown channel, each an iff. A refused send changes nothing; otherwise one chat message goes to the channel's stored prefixed name |
| ClientSpec.SendById | HLE/Twitch/TwitchClient.cs:208-222 | The same ordered refusals, with the channel looked up by id; a successful send appends one chat message to the prefixed name of an entry with that id |
| ClientSpec.SendRaw | HLE/Twitch/TwitchClient.cs:234-242 | Fails exactly when disconnected, and then changes nothing; otherwise appends the raw line. Anonymous clients may send raw lines |
| ClientSpec.ConnectDisconnectIdempotent | HLE/Twitch/TwitchClient.cs:247-255 | Connecting and disconnecting (lines 397-406) never throw, and doing either a second time changes nothing. Disconnecting keeps the retained list and empties the registry |
| ClientSpec.Join | HLE/Twitch/TwitchClient.cs:309-317 | A name `FormatChannel` rejects throws `FormatException` and changes nothing. Otherwise the formatted name is retained whatever the connection state, and a join command is sent only when connected |
| ClientSpec.JoinAll | HLE/Twitch/TwitchClient.cs:290-296 | Joining a list keeps the connection state, the login kind and the registry, and only appends to the retained list and to the commands sent, whether or not a join throws |
| ClientSpec.Leave | HLE/Twitch/TwitchClient.cs:329-343 | With no retained channels nothing happens, not even validation. A name `FormatChannel` rejects throws. Otherwise one occurrence of the formatted name leaves the retained list, the caller's spelling leaves the registry, and a leave command for that spelling is sent when connected |
| ClientSpec.LeaveShrinks | HLE/Twitch/TwitchClient.cs:329-343 | A leave keeps the connection state and the login kind, only removes retained names (as multisets), and only appends to the commands sent |
| ClientSpec.LeaveAll | HLE/Twitch/TwitchClient.cs:372-378 | Leaving a list keeps the connection state and the login kind, only removes retained names (as multisets), and only appends to the commands sent, whether or not a leave throws |
| ClientSpec.LeaveEverything | HLE/Twitch/TwitchClient.cs:383-392 | `LeaveChannelsAsync()` over a snapshot of the retained list: when no leave throws both lists end empty; the connection state is kept and commands are only appended |
| ClientSpec.OnRoomstate | HLE/Twitch/TwitchClient.cs:425-429 | A ROOMSTATE message never throws and only updates the registry |
| ClientSpec.OnPing | HLE/Twitch/TwitchClient.cs:431-443 | A PING is answered with "PONG :" followed by the payload, sent as a raw line; this fails exactly when disconnected |
| ClientSpec.JoinEnumerableJoinsTwice | HLE/Twitch/TwitchClient.cs:263-271 | As written, joining a one-element list that exposes a memory view joins it twice: the channel is retained twice and two join commands go out |
| ClientSpec.LeaveEnumerableLeavesTwice | HLE/Twitch/TwitchClient.cs:346-354 | As written, leaving a one-element list that exposes a memory view sends two leave commands for it |
| ClientSpec.JoinEnumerableAsWritten | HLE/Twitch/TwitchClient.cs:263-271 | As written, the `IEnumerable` join over a list with a memory view is the one-pass join of the list twice over, and without one the one-pass join of the list |
| ClientSpec.LeaveEnumerableAsWritten | HLE/Twitch/TwitchClient.cs:346-354 | As written, the `IEnumerable` leave over a list with a memory view is the one-pass leave of the list twice over, and without one the one-pass leave of the list |
| ClientSpec.JoinAllAppend | HLE/Twitch/TwitchClient.cs:290-296 | Joining `a + b` is joining `a` and then, unless that threw, joining `b` |
| ClientSpec.LeaveAllAppend | HLE/Twitch/TwitchClient.cs:372-378 | Leaving `a + b` is leaving `a` and then, unless that threw, leaving `b` |
| ClientSpec.LeaveEverythingAsWritten | HLE/Twitch/TwitchClient.cs:383-392 | `LeaveChannelsAsync()` as written, walking a view of the retained list's own buffer while each leave shifts it: disconnected it is `LeaveEverything`, and when no leave throws both lists end empty |
| ClientSpec.LeaveEverythingAsWrittenSkips | HLE/Twitch/TwitchClient.cs:383-392 | For a connected client retaining three formatted names a, b, c, the loop as written reads a, then c: with a stale freed slot c is left twice and b never; with a cleared slot the third read throws `FormatException` and b stays retained. The snapshot loop leaves a, b, c |
| ClientSpec.MiddleNeverLeft | HLE/Twitch/TwitchClient.cs:383-392 | Whichever way the freed slot is left, the loop as written sends no leave for the middle one of three retained names |
| ClientSpec.SampleNamesFormatted | HLE/Twitch/TwitchClient.cs:92 | "#aaa", "#bbb" and "#ccc" are three different names that formatting leaves unchanged, so the skipped leave happens on them |
| ClientSpec.JoinAllRetainsOnce | HLE/Twitch/TwitchClient.cs:290-317 | Joining valid names once never throws and retains each formatted name exactly once, in order. It leaves the registry alone and sends nothing while disconnected |
| ClientSpec.JoinKeeps | HLE/Twitch/TwitchClient.cs:309-317 | A join keeps the client invariant and only appends non-chat commands |
| ClientSpec.LeaveKeeps | HLE/Twitch/TwitchClient.cs:329-343 | A leave keeps the client invariant and only appends non-chat commands |
| ClientSpec.JoinAllKeeps | HLE/Twitch/TwitchClient.cs:290-296 | A list of joins, stopping at the first that throws, keeps the invariant |
| ClientSpec.LeaveAllKeeps | HLE/Twitch/TwitchClient.cs:372-378 | A list of leaves, stopping at the first that throws, keeps the invariant |
| ClientSpec.ApplyKeepsInv | HLE/Twitch/TwitchClient.cs:181-443 | Every public operation keeps the invariant and the login kind, and only appends to the commands sent |
| ClientSpec.RunKeepsInv | HLE/Twitch/TwitchClient.cs:181-443 | Any sequence of operations keeps the invariant, and the command log only grows |
| ClientSpec.AnonymousClientNeverChats | HLE/Twitch/TwitchClient.cs:186-189 | A client created anonymous (lines 104-109) never sends a chat message through either send (lines 186-189, 213-216), whatever is done to it |
| ClientSpec.JoinLeaveLineFeed | HLE/Twitch/TwitchClient.cs:309-343 | On a connected client, "abc\n" is joined as "#abc\n" with a join command, and leaving "abc\n" then succeeds, gives back the retained channels as a multiset and sends a part for "abc\n" |
| ClientSpec.JoinThenLeave | HLE/Twitch/TwitchClient.cs:309-343 | Joining a valid channel and then leaving it succeeds and gives back the retained channels (as a multiset) |
| ClientSpec.LeaveAllRetained | HLE/Twitch/TwitchClient.cs:372-378 | Leaving formatted names that are all retained never throws. It removes them (as multisets) and, when connected, sends one leave per name in order |
| ClientSpec.LeaveRetained | HLE/Twitch/TwitchClient.cs:329-343 | Leaving one retained name succeeds. It removes one occurrence, keeps the rest formatted, and sends one leave when connected |
| ClientSpec.RemovedStaysFormatted | HLE/Twitch/TwitchClient.cs:337 | Removing names from a formatted retained list leaves it formatted |
| ClientSpec.LeaveEverythingClears | HLE/Twitch/TwitchClient.cs:383-392 | Corrected (snapshot) form: on a reachable state, leaving everything never throws. It empties both lists, keeps the connection state, and sends one leave per retained channel when connected |
| Twitch.TwitchClient.Anonymous | HLE/Twitch/TwitchClient.cs:104-109 | The anonymous client logs in as "justinfan123", disconnected, with nothing retained or sent |
| Twitch.TwitchClient.Login | HLE/Twitch/TwitchClient.cs:118-124 | Once the username is formatted, the named client keeps it and starts disconnected, not anonymous, with nothing retained, registered or sent |
| Twitch.TwitchClient.FromIrcClient | HLE/Twitch/TwitchClient.cs:130-135 | A client built on an IRC client is anonymous exactly when the login matches the anonymous pattern |
| Twitch.Create | HLE/Twitch/TwitchClient.cs:118-124 | The named constructor throws `FormatException` exactly when `FormatChannel` does, so a valid name with one final '\n' is accepted; otherwise the username is stored in its formatted form without '#' |
| Twitch.TwitchClient.Send | HLE/Twitch/TwitchClient.cs:181-195 | The new state and the thrown exception are those of `ClientSpec.Send` |
| Twitch.TwitchClient.SendById | HLE/Twitch/TwitchClient.cs:208-222 | The new state and the thrown exception are those of `ClientSpec.SendById` |
| Twitch.TwitchClient.SendRaw | HLE/Twitch/TwitchClient.cs:234-242 | The new state and the thrown exception are those of `ClientSpec.SendRaw` |
| Twitch.TwitchClient.Connect | HLE/Twitch/TwitchClient.cs:247-260 | The new state is that of `ClientSpec.Connect`: nothing when connected, else connect with the retained channels |
| Twitch.TwitchClient.Disconnect | HLE/Twitch/TwitchClient.cs:397-406 | The new state is that of `ClientSpec.Disconnect`: nothing when disconnected, else disconnect and clear the registry |
| Twitch.TwitchClient.JoinChannel | HLE/Twitch/TwitchClient.cs:309-317 | Formats through a scratch buffer (lines 467-472); the new state and the exception are those of `ClientSpec.Join` |
| Twitch.TwitchClient.JoinChannels | HLE/Twitch/TwitchClient.cs:274-296 | The loop's new state and exception are those of `ClientSpec.JoinAll`: one join after another, with the validation of `FormatChannel`, stopping at the first that throws |
| Twitch.TwitchClient.LeaveChannel | HLE/Twitch/TwitchClient.cs:329-343 | Formats through a scratch buffer (lines 467-472); the new state and the exception are those of `ClientSpec.Leave` |
| Twitch.TwitchClient.LeaveChannels | HLE/Twitch/TwitchClient.cs:357-378 | The loop's new state and exception are those of `ClientSpec.LeaveAll`: one leave after another, with the validation of `FormatChannel`, stopping at the first that throws |
| Twitch.TwitchClient.LeaveAllChannels | HLE/Twitch/TwitchClient.cs:383-392 | The new state and exception are those of `ClientSpec.LeaveEverything`, the corrected snapshot loop: leave every retained channel when connected, then clear both lists. The loop as written skips channels (see Findings) |
| Twitch.TwitchClient.OnRoomstate | HLE/Twitch/TwitchClient.cs:425-429 | The new state is that of `ClientSpec.OnRoomstate` |
| Twitch.TwitchClient.OnPing | HLE/Twitch/TwitchClient.cs:431-443 | The new state and exception are those of `ClientSpec.OnPing` |
| LeftChannel.IndexOf | HLE/Twitch/Models/LeftChannelArgs.cs:28 | `IndexOf` gives -1 exactly when the character is absent, and otherwise its first position |
| LeftChannel.IndexOfIsFirst | HLE/Twitch/Models/LeftChannelArgs.cs:28 | A position holding the character with no earlier occurrence is the one `IndexOf` finds |
| LeftChannel.Parse | HLE/Twitch/Models/LeftChannelArgs.cs:25-31 | The constructor fails exactly when the first token has no '!' after position 0 or the last token is empty. Otherwise the username is the text between the first character and the first '!', and the channel is the last token minus its first character |
| LeftChannel.MiddleTokensIgnored | HLE/Twitch/Models/LeftChannelArgs.cs:25-31 | Only the first and the last token matter to the result |
| LeftChannel.SamplePartLine | HLE/Twitch/Models/LeftChannelArgs.cs:25-31 | The PART line of the handler tests gives user "strbhlfe" and channel "lbnshlfe" |
| RoomState.FlagsOf | HLE/Twitch/Models/Channel.cs:30-38 | A message's flags are its six room-state fields |
| RoomState.Channel.constructor | HLE/Twitch/Models/Channel.cs:23-28 | Name and id come from the message, and the flags are the message's |
| RoomState.Channel.Update | HLE/Twitch/Models/Channel.cs:30-38 | An update overwrites all six flags with the message's, whatever they were |
| RoomState.Channel.UpdateTwice | HLE/Twitch/Models/Channel.cs:30-38 | Of two updates the second wins: the flags afterwards are the second message's, whatever the first carried |
| SpanQueue.Queue.Default | HLE/Collections/Queue.cs:16-18 | The default queue is empty with capacity 0 and `_lastIndex` 0 |
| SpanQueue.Queue.constructor | HLE/Collections/Queue.cs:20-24 | The queue starts empty over the caller's buffer, with `_lastIndex` equal to `Length - 1` |
| SpanQueue.Queue.Capacity | HLE/Collections/Queue.cs:9 | The capacity is the buffer's length, and a valid queue never holds more elements than that |
| SpanQueue.Queue.Enqueue | HLE/Collections/Queue.cs:26-44 | Fails exactly when every slot is live; otherwise appends the item to the contents, compacting first when the write index ran off the end. A full queue throws "Queue is full." and is unchanged, except the fresh default queue: it throws `IndexOutOfRangeException` after `_enqueueIndex++` has already advanced, which leaves it in the overrun state |
| SpanQueue.DefaultEnqueueTwice | HLE/Collections/Queue.cs:26-44 | On a default queue the first enqueue throws `IndexOutOfRangeException` and the second throws "Queue is full." |
| SpanQueue.Queue.Compact | HLE/Collections/Queue.cs:35-39 | Copying the live elements to the front keeps the contents and resets the read index to 0 |
| SpanQueue.Queue.Dequeue | HLE/Collections/Queue.cs:46-55 | Fails exactly when empty, changing nothing; otherwise returns the oldest element and removes it |
| SpanQueue.Queue.Peek | HLE/Collections/Queue.cs:57-65 | Fails exactly when empty; otherwise gives the oldest element |
| SpanQueue.Queue.TryEnqueue | HLE/Collections/Queue.cs:67-76 | Returns false exactly when full, changing nothing; otherwise appends the item |
| SpanQueue.Queue.TryDequeue | HLE/Collections/Queue.cs:78-88 | Gives nothing exactly when empty; otherwise returns the oldest element and removes it |
| SpanQueue.Queue.TryPeek | HLE/Collections/Queue.cs:90-100 | Gives nothing exactly when empty; otherwise the oldest element |
| SpanQueue.Queue.Clear | HLE/Collections/Queue.cs:102-107 | Empties the queue and resets both indices |
| SpanQueue.FifoAcrossCompaction | HLE/Collections/Queue.cs:26-55 | A two-slot queue hands back a, b and c in that order across one compaction |
| CollectionHelper.Replaced | HLE/Collections/CollectionHelper.cs:135-152 | Replacement keeps the length, and each element satisfying the condition becomes the replacement while the others stay |
| CollectionHelper.Replace | HLE/Collections/CollectionHelper.cs:135-152 | The span is replaced in place, element by element, as `Replaced` says |
| CollectionHelper.ReplaceCopy | HLE/Collections/CollectionHelper.cs:119-133 | The array and list forms return a fresh replaced copy |
| CollectionHelper.IndicesWhere | HLE/Collections/CollectionHelper.cs:360-379 | The matching positions come in strictly increasing order, each within the span |
| CollectionHelper.IndicesWhereExact | HLE/Collections/CollectionHelper.cs:360-379 | The listed positions are exactly the matching ones, each once, ascending |
| CollectionHelper.IndicesWhereNone | HLE/Collections/CollectionHelper.cs:360-379 | A span without matches gives no positions |
| CollectionHelper.IndicesWherePrefix | HLE/Collections/CollectionHelper.cs:370-376 | One more element adds its position exactly when it matches |
| CollectionHelper.IndicesWhereMonotone | HLE/Collections/CollectionHelper.cs:370-376 | A prefix never has more matches than the whole span |
| CollectionHelper.IndicesOf | HLE/Collections/CollectionHelper.cs:360-379 | The matching positions are written to the front of the buffer and counted; the rest of the buffer is untouched |
| CollectionHelper.IndicesOfItem | HLE/Collections/CollectionHelper.cs:482-501 | The branch-free item form writes the same positions under `Equals`, with null never matching; only the slot after the last match may be clobbered |
| CollectionHelper.SpanLengthBufferSuffices | HLE/Collections/CollectionHelper.cs:222-223 | A buffer as long as the span is always large enough for the item form |
| CollectionHelper.WithoutAppend | HLE/Collections/CollectionHelper.cs:215-255 | Removing separators distributes over concatenation |
| CollectionHelper.FlattenNonEmpty | HLE/Collections/CollectionHelper.cs:242-245 | Dropping empty pieces does not change their concatenation |
| CollectionHelper.PiecesBeforeFlatten | HLE/Collections/CollectionHelper.cs:237-246 | The pieces before the first i separators concatenate to the prefix they cover, separators removed |
| CollectionHelper.PiecesAtExactCuts | HLE/Collections/CollectionHelper.cs:237-252 | Cutting at exactly the separators gives clean pieces that concatenate to the input without separators |
| CollectionHelper.SplitPiecesCorrect | HLE/Collections/CollectionHelper.cs:215-255 | The pieces of a split are non-empty and hold no separator, and together they are the input with its separators removed |
| CollectionHelper.SplitWithoutSeparator | HLE/Collections/CollectionHelper.cs:224-230 | A non-empty input without the separator splits into exactly itself |
| CollectionHelper.Split | HLE/Collections/CollectionHelper.cs:215-255 | The corrected method returns exactly the non-empty pieces between separators, including the last |
| CollectionHelper.SplitAsWritten | HLE/Collections/CollectionHelper.cs:215-255 | The as-written method returns the pieces before the last separator only |
| CollectionHelper.SplitAsWrittenDropsTail | HLE/Collections/CollectionHelper.cs:248-254 | Once a separator occurs, the as-written result misses exactly the non-empty piece after the last separator |
| CollectionHelper.SplitAsWrittenLosesElement | HLE/Collections/CollectionHelper.cs:248-254 | `[1, 0, 2]` split on `0` gives `[[1]]` as written, not `[[1], [2]]`; the concatenation loses `2` |
| CollectionHelper.PiecesBetween | HLE/Collections/CollectionHelper.cs:232-252 | The loop plus the tail step builds exactly the non-empty pieces between the given positions |
| CollectionHelper.PiecesBeforeCuts | HLE/Collections/CollectionHelper.cs:237-246 | The loop collects exactly the non-empty pieces ending at each position |
| CollectionHelper.FillAscending | HLE/Collections/CollectionHelper.cs:589-684 | Every slot i holds `start + i`, wrapped to 32 bits |
| CollectionHelper.Randomize | HLE/Collections/CollectionHelper.cs:532-547 | Whatever indices are drawn, the span ends as a permutation of its input |
| CollectionHelper.RandomCollection | HLE/Collections/CollectionHelper.cs:568-583 | An empty span gives an empty array. Otherwise a negative length throws, and any other length gives that many elements, each taken from the span |
| CollectionHelper.Random | HLE/Collections/CollectionHelper.cs:54-65 | Gives nothing (a null reference) exactly for an empty span, and otherwise an element of the span |
| SmallPool.FirstEmpty | src/HLE/Memory/ArrayPool.SmallArrayPool.cs:33-48 | The first empty slot of a bucket: every earlier slot holds an array |
| SmallPool.PrefixFilledTail | src/HLE/Memory/ArrayPool.SmallArrayPool.cs:66-77 | In a bucket filled from the front, every slot from the first empty one on is empty |
| SmallPool.TakeLastKeepsPrefix | src/HLE/Memory/ArrayPool.SmallArrayPool.cs:42-47 | Emptying the last filled slot keeps the bucket filled from the front, one shorter |
| SmallPool.FillFirstKeepsPrefix | src/HLE/Memory/ArrayPool.SmallArrayPool.cs:74-76 | Filling the first empty slot keeps the bucket filled from the front, one longer |
| SmallPool.FirstEmptyIs | src/HLE/Memory/ArrayPool.SmallArrayPool.cs:66-77 | The first empty slot is characterised by a filled prefix followed by a null |
| SmallPool.SmallArrayPool.constructor | src/HLE/Memory/ArrayPool.SmallArrayPool.cs:14 | A new pool has every bucket empty |
| SmallPool.SmallArrayPool.FirstEmptySlot | src/HLE/Memory/ArrayPool.SmallArrayPool.cs:33-40 | With slot 0 filled, the scan from index 1 stops at the bucket's first empty slot, or at its end when the bucket is full |
| SmallPool.SmallArrayPool.TakeLast | src/HLE/Memory/ArrayPool.SmallArrayPool.cs:42-47 | The array in the last filled slot is handed out and has the bucket's length; that slot alone becomes empty, and the pool stays valid |
| SmallPool.SmallArrayPool.Rent | src/HLE/Memory/ArrayPool.SmallArrayPool.cs:16-51 | Length 0 gives the pool's one shared empty array (`Array.Empty<T>()`). Otherwise the array in the last filled slot is taken, and that slot is emptied. An empty or full bucket allocates instead. Other buckets stay the same |
| SmallPool.SmallArrayPool.RentIncludingFull | src/HLE/Memory/ArrayPool.SmallArrayPool.cs:16-51 | The corrected rent: any non-empty bucket, a full one included, gives up its last array |
| SmallPool.SmallArrayPool.Return | src/HLE/Memory/ArrayPool.SmallArrayPool.cs:53-78 | An empty array is ignored. Otherwise the array fills the first empty slot of its bucket, or is dropped when the bucket is full. Other buckets stay the same |
| SmallPool.EmptyRentsShared | src/HLE/Memory/ArrayPool.SmallArrayPool.cs:20-23 | Two requests for length 0 get the very same empty array |
| SmallPool.FullBucketStaysFull | src/HLE/Memory/ArrayPool.SmallArrayPool.cs:33-50 | As written, renting from a full bucket allocates a fresh array and the bucket stays full |
| SmallPool.FullBucketServes | src/HLE/Memory/ArrayPool.SmallArrayPool.cs:33-50 | With the corrected rent, a full bucket hands out its last array and takes it back on return |
| Rented.ArrayPool.Return | src/HLE/Memory/RentedArray.cs:110 | The pool records each array handed back, in order |
| Rented.Index.GetOffset | src/HLE/Memory/RentedArray.cs:51 | An index from the end is the length minus its value; one from the start is its value |
| Rented.OutOfRangeUnsignedExact | src/HLE/Memory/RentedArray.cs:42 | The unsigned compare rejects exactly the indices below 0 or at or past the length |
| Rented.RentedArray.Empty | src/HLE/Memory/RentedArray.cs:85-94 | The default handle holds the shared empty array (`[]`, that is `Array.Empty<T>()`) of the shared pool, has length 0 and is not disposed |
| Rented.RentedArray.constructor | src/HLE/Memory/RentedArray.cs:96-100 | The handle holds the given array and pool |
| Rented.RentedArray.IsDisposed | src/HLE/Memory/RentedArray.cs:59 | A handle is disposed exactly when its array reference is null |
| Rented.RentedArray.Length | src/HLE/Memory/RentedArray.cs:70-83 | The length (line 57) is the array's; reading it throws `ObjectDisposedException` exactly once disposed |
| Rented.RentedArray.Dispose | src/HLE/Memory/RentedArray.cs:102-111 | The first call hands the array back to its pool once and marks the handle disposed; later calls do nothing |
| Rented.RentedArray.Get | src/HLE/Memory/RentedArray.cs:37-45 | Throws `ObjectDisposedException` when disposed (lines 70-83), and `ArgumentOutOfRangeException` exactly for indices outside the array; otherwise gives that element |
| Rented.RentedArray.Set | src/HLE/Memory/RentedArray.cs:37-45 | A write through the indexer fails as a read would and then changes nothing; otherwise it changes exactly that element |
| Rented.RentedArray.GetAt | src/HLE/Memory/RentedArray.cs:51 | The `Index` indexer reads `Length` first, so a disposed handle throws before the offset is used; otherwise it is the integer indexer at the offset |
| Rented.RentedArray.ToArray | src/HLE/Memory/RentedArray.cs:154-165 | Throws exactly once disposed; otherwise gives an element-wise equal copy, fresh when non-empty and the shared empty array when empty |
| Rented.RentedArray.Clear | src/HLE/Memory/RentedArray.cs:226 | Throws exactly once disposed; otherwise every element becomes the default value |
| Rented.RentedArray.Equals | src/HLE/Memory/RentedArray.cs:236 | Throws when either side is disposed; otherwise true exactly for the same array object and the same pool |
| Rented.DisposeTwice | src/HLE/Memory/RentedArray.cs:102-111 | Disposing twice hands the array to the pool exactly once |
| Rented.EmptyHandlesEqual | src/HLE/Memory/RentedArray.cs:85-94 | Two default handles hold the same shared empty array and pool, so `Equals` says they are equal |
| MemoryHelpers.MaximumStackallocSize | src/HLE/Memory/MemoryHelpers.cs:17-20 | The limit is 8192 bytes in a 64-bit process and 2048 in a 32-bit one |
| MemoryHelpers.UseStackallocAsWritten | src/HLE/Memory/MemoryHelpers.cs:31-35 | As written, the test agrees with the byte limit whenever the `int` product does not wrap |
| MemoryHelpers.UseStackalloc | src/HLE/Memory/MemoryHelpers.cs:31-35 | Corrected: a stack allocation is chosen exactly when the total bytes fit the limit, and this agrees with the as-written test wherever the product fits in an `int` |
| MemoryHelpers.UseStackallocWraps | src/HLE/Memory/MemoryHelpers.cs:33-34 | 2^30 four-byte elements wrap to 0 bytes: the as-written test allows a 4 GiB stack allocation |
| MemoryHelpers.PopCountOneIffPowerOfTwo | src/HLE/Memory/MemoryHelpers.cs:45-48 | A population count of 1 holds exactly for the powers of two |
| MemoryHelpers.SingleBitMaskIsMod | src/HLE/Memory/MemoryHelpers.cs:51 | For a power of two a, `x & (a - 1)` is `x % a` |
| MemoryHelpers.IsAligned | src/HLE/Memory/MemoryHelpers.cs:43-52 | Throws exactly when the alignment is not a non-zero power of two; otherwise true exactly when the address is a multiple of the alignment |
| MemoryHelpers.RoundUp | src/HLE/Memory/MemoryHelpers.cs:72 | Adding `alignment - address % alignment` reaches a multiple, a step of 1 up to the alignment |
| MemoryHelpers.RoundDown | src/HLE/Memory/MemoryHelpers.cs:74 | `address & ~(alignment - 1)` subtracts exactly the remainder |
| MemoryHelpers.Align | src/HLE/Memory/MemoryHelpers.cs:60-79 | Throws for a bad alignment or an unknown method. Rounding down gives the largest multiple not above the address; rounding up, without overflow, gives a multiple above the address by at most the alignment |
| MemoryHelpers.AlignAddOfAlignedMovesUp | src/HLE/Memory/MemoryHelpers.cs:72 | An address that is already aligned still moves up by a whole alignment when rounding up |
| Time.Day.constructor | HLE/Time/Day.cs:47-50 | The count is the one given |
| Time.Day.Default | HLE/Time/Day.cs:47 | The default count is one day |
| Time.Day.Milliseconds | HLE/Time/Day.cs:18-41 | `Count * 86400000` in 64 bits is exact for every `int` count |
| Time.Day.Seconds | HLE/Time/Day.cs:23 | Truncating division gives exactly 86400 seconds per day, negative counts included |
| Time.Day.Minutes | HLE/Time/Day.cs:30 | Truncating division gives exactly 1440 minutes per day |
| Time.Day.SetCount | HLE/Time/Day.cs:13 | After setting the count, every conversion follows the new count |
| ObjectMarshal.BaseObjectSize | src/HLE/Marshalling/ObjectMarshal.cs:13-17 | The base size is two pointers |
| ObjectMarshal.GetRawStringSize | src/HLE/Marshalling/ObjectMarshal.cs:166-172 | For any length a string can have, the size is the header, 4, two bytes per char and 2, with no wrap |
| ObjectMarshal.GetRawStringSizeOf | src/HLE/Marshalling/ObjectMarshal.cs:162-164 | The size of a string is that of its length |
| ObjectMarshal.StringSizeGrowsByTwo | src/HLE/Marshalling/ObjectMarshal.cs:166-172 | One more char costs exactly two more bytes |
| ObjectMarshal.GetRawArraySizeAsWritten | src/HLE/Marshalling/ObjectMarshal.cs:201-206 | As written, the size is exact whenever the element bytes and header fit in 32 bits |
| ObjectMarshal.GetRawArraySizeOfArray | src/HLE/Marshalling/ObjectMarshal.cs:194-199 | The non-generic size is the header, a pointer-sized length and `LongLength * ComponentSize`, exact below 2^64 |
| ObjectMarshal.GetRawArraySize | src/HLE/Marshalling/ObjectMarshal.cs:201-206 | Corrected: the header, a pointer-sized length and every element byte, with no 32-bit wrap; this agrees with the as-written form where that does not wrap |
| ObjectMarshal.GetRawArraySizeOf | src/HLE/Marshalling/ObjectMarshal.cs:190-192 | The size of an array is that of its length |
| ObjectMarshal.GenericAgreesWithNonGeneric | src/HLE/Marshalling/ObjectMarshal.cs:194-206 | The generic and non-generic sizes agree when the component size is `sizeof(T)` |
| ObjectMarshal.GenericArraySizeWraps | src/HLE/Marshalling/ObjectMarshal.cs:201-206 | 2^29 eight-byte elements give 24 bytes as written, where the array takes 2^32 more |

## Left out

- Asynchrony, events, reconnection after a connection error, `Dispose` and the finalizer of `TwitchClient` are not modelled. Each awaited call is one atomic step, and the reconnection lock and timers are left out.
- The IRC connection (`WebSocketIrcClient`) is not part of this model; it is represented by the connection flag and the log of commands handed to it.
- `ChannelList` is not part of this model. The registry is a sequence of entries looked up by exact name or id. A ROOMSTATE for a new channel registers it with '#' and its name as the prefixed name.
- Twitch.TwitchClient.JoinChannel: the scratch buffer of `channel.Length + 1` chars is taken with `stackalloc` (line 469) before validation, so a very long name overflows the stack instead of throwing `FormatException`. The model allocates the buffer on the heap and leaves stack overflow out.
- Twitch.TwitchClient.LeaveChannel: the same `stackalloc` scratch buffer comes before validation, and stack overflow on a very long name is left out in the same way.
- `ConcurrentPoolBufferList` is not part of this model. Its `Remove` is taken to shift the later names down one slot and either to keep or to clear the freed slot; `ClientSpec.LeaveEverythingAsWritten` covers both. `ClientSpec.LeaveEverything`, which the client class uses, goes over a snapshot of the retained list, so one leave per retained channel holds for that corrected loop only.
- The regex `\w` is taken as the ASCII letters, digits and '_', and `ToLowerInvariant` as ASCII lower-casing. Unicode word characters, culture and the regex timeout are left out.
- The `IEnumerable` overloads of `JoinChannelsAsync` and `LeaveChannelsAsync` are used through their corrected one-pass forms. The as-written forms are the functions `ClientSpec.JoinEnumerableAsWritten` and `ClientSpec.LeaveEnumerableAsWritten`.
- `TwitchClient.Equals`, `GetHashCode` and `UseSSL` are left out: they compare references or read a pointer.
- The vector paths of `FillAscending` are not modelled apart from the scalar loop; the contract states what every path must produce.
- The distribution of `Random.Int` is left out. Random indices are an arbitrary choice in range.
- CollectionHelper.IndicesOf: requires a buffer with room for every match, where the source throws `IndexOutOfRangeException` on a short buffer.
- CollectionHelper.IndicesOfItem: requires room for one slot past each match but the last, where the source throws on a short buffer.
- The `IEnumerable`, `List` and `delegate*` overloads in `CollectionHelper` that copy and delegate, and `JoinToString`, `ConcatToString`, `RandomString` and `ToDictionary`, are not modelled.
- The pool's `clearArray` handling (`ClearArrayIfNeeded`) is left out. The bucket count and the number of slots per bucket (`MinimumArrayLength`, `SmallBucket.Length`) are constructor parameters.
- SmallPool.SmallArrayPool.Rent: requires `length <= BucketCount()`, which is the source's debug assertion.
- SmallPool.SmallArrayPool.Return: requires `a.Length <= BucketCount()`, which is the source's debug assertion.
- The shared empty array of `Rent(0)` is one array per pool, not one per element type across the process.
- `RentedArray<T>` is a struct in the source. Here it is a class, so copies of the struct that share `_array` and the atomic `Interlocked.Exchange` are not modelled.
- `AsSpan`, `AsMemory`, `ToList`, `CopyTo`, `ToString`, `GetHashCode`, the enumerators, `Reference` and the range indexer of `RentedArray` are left out.
- Rented.RentedArray.Get: requires the array length below 2^31, a fact of .NET arrays.
- LeftChannel.Parse: requires valid ranges (a non-empty range list lying within the line), which the documentation of the parameter (LeftChannelArgs.cs line 24) makes the caller's duty; the exceptions the source throws at lines 27 and 30 on bad ranges are not modelled.
- `Day.Hours`, `Days`, `Years` and `Pattern` are left out, because they are floating-point divisions or a constant.
- `ObjectMarshal` members that read the runtime (`GetObjectSize`, method tables, boxing and field access) are left out. Only the closed-form size arithmetic is modelled.
- `MemoryHelpers` addresses are natural numbers below 2^64 (a 64-bit process); the `void*` overloads are the same functions.

## Findings

| source | as written | input that shows it | evidently intended | confidence | as-written member | corrected member |
|---|---|---|---|---|---|---|
| HLE/Twitch/TwitchClient.cs:92 | `^#?\w{3,25}$` without `RegexOptions.Multiline` lets `$` match before a final '\n', so a name with a trailing line feed is accepted and kept; the client model keeps this behaviour | "abc\n" formats to "#abc\n" | reject anything but '#' and 3 to 25 word characters (`\z` instead of `$`) | not executed; high | ChannelNames.FormatChannelAcceptsLineFeed | ChannelNames.FormattedIsClean |
| src/HLE/Marshalling/ObjectMarshal.cs:206 | `(uint)arrayLength * (uint)sizeof(T)` is a 32-bit product | 2^29 eight-byte elements in a 64-bit process give 24 bytes | multiply in `nuint`, as `GetRawArraySize(Array)` does in `ulong` | not executed; medium | ObjectMarshal.GenericArraySizeWraps | ObjectMarshal.GetRawArraySize |
| src/HLE/Memory/MemoryHelpers.cs:33 | `sizeof(T) * elementCount` is an `int` product | 2^30 elements of 4 bytes wrap to 0 and pass the limit | compare the product without wrap-around | not executed; medium | MemoryHelpers.UseStackallocWraps | MemoryHelpers.UseStackalloc |
| HLE/Twitch/TwitchClient.cs:263-271 | no `return` after joining through the memory view, so the channels are joined again through `ToArray()` | connected client, list `["Abc"]`: "#abc" retained twice, two joins sent | join once | not executed; high | ClientSpec.JoinEnumerableJoinsTwice | ClientSpec.JoinAllRetainsOnce |
| HLE/Twitch/TwitchClient.cs:346-354 | the same missing `return` leaves every channel twice | connected client retaining "#abc" and "#xyz", list `["abc"]`: two leaves sent | leave once | not executed; high | ClientSpec.LeaveEnumerableLeavesTwice | ClientSpec.LeaveAllRetained |
| HLE/Twitch/TwitchClient.cs:383-392 | the loop runs over `_ircChannels.AsMemory()`, the memory of the very list each `LeaveChannelAsync` removes from (line 337), so the names shift under it | connected client retaining "#aaa", "#bbb", "#ccc": "#aaa" and then "#ccc" are left and "#bbb" never; if the freed slot is cleared, the third read is null and throws `FormatException` | leave every retained channel, then clear both lists | not executed; low (plausible: depends on `ConcurrentPoolBufferList`, which is not part of this model) | ClientSpec.LeaveEverythingAsWrittenSkips | ClientSpec.LeaveEverythingClears |
| HLE/Collections/CollectionHelper.cs:251-254 | the piece after the last separator is stored at `result[resultLength]` without incrementing `resultLength`, so `result[..resultLength]` drops it | `[1, 0, 2]` split on `0` gives `[[1]]` | `[[1], [2]]` | not executed; high | CollectionHelper.SplitAsWrittenLosesElement | CollectionHelper.SplitPiecesCorrect |
| src/HLE/Memory/ArrayPool.SmallArrayPool.cs:33-50 | the loop looks for the first null slot from index 1, and a full bucket has none, so it allocates | a bucket whose every slot holds an array: `Rent` allocates, and the later `Return` is dropped | take the last array of a full bucket too | not executed; medium | SmallPool.FullBucketStaysFull | SmallPool.FullBucketServes |
