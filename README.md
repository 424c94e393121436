# RecallGuard: a Dafny model of the image recall-shadow cache

RecallGuard is an AstrBot plugin for the aiocqhttp (OneBot v11) platform. It watches
the messages of configured users. When such a user sends an image, the plugin fetches
the image through the `get_image` action and copies it into its own cache directory.
It then records the copy in a process-wide dictionary, `IMAGE_CACHE`, keyed by the
message id. If that message is later recalled by a monitored user, the plugin removes
the entry. It sends a prompt and the cached image to every configured target session,
then deletes the file. A background task empties the whole cache every ten minutes.
A separate helper module builds OneBot v11 message segments and forward nodes, and
sends a group forward message through the raw client.

The model has five modules:

- `Wrappers` (`wrappers.dfy`): `Option`.
- `Paths` (`paths.dfy`): the cache file name of a message. It models Python's
  `str(int)`, `posixpath.splitext` and `posixpath.join` (POSIX only). It proves that
  a cache path names its key, so two keys never share a file.
- `ShadowStore` (`shadow_store.dfy`): the plugin state as a value,
  `Store(cache, disk)`. `cache` is `IMAGE_CACHE`; `disk` is the set of files in the
  cache directory. Each handler has a function giving its effect, and the lemmas say
  what that effect is. The invariant `Consistent` holds for every store the plugin
  reaches. It says that every key is a non-empty string of digits and minus signs
  (as every `str(message_id)` is), that its record's file is `cache_dir/<key><ext>`,
  and that the file exists.
- `RecallGuard` (`recall_guard.dfy`): the class `AntiRecallPlugin`. Its fields are
  `cache`, `disk`, `running` and `config`. Its methods are the handlers, written as
  imperative code: the ingestion loop over message components, the send loop over
  target sessions, and the cleanup loop over a snapshot of the keys. The image
  handler (`OnImageMessage`), the recall handler (`OnRecallNotice`) and the cleanup
  methods (`CleanupPass`, `CleanupTick`) are proved to change the state exactly as
  the matching `ShadowStore` function says, and to keep `Valid()`. The smaller
  methods (`CopyAndCacheImage`, `ForwardRecalledImage`, `Terminate`, `SendToAll`)
  state their effect directly in their contracts.
- `CqhttpForwarder` (`cqhttp_forwarder.dfy`): the segment builders, and the outcome
  logic of `send_group_forward_message_by_api`.

Outside effects are inputs to the model:

- `ImageFetch`: one per message component. It gives the `get_image` reply, or that
  the call raised, and whether `shutil.copy2` succeeded.
- `SendOutcome`: one per target session. It says whether `send_message` returned
  true, returned false, or raised.
- `now`: the ingestion time.
- `format`: Python's `str.format` applied to the prompt template.
- `abspath`: `os.path.abspath`.
- `pluginDir`: `os.path.dirname(__file__)`, the plugin's own directory.

Message ids and the ids in a recall notice are OneBot integers. The cache key is
their decimal rendering (`Paths.Decimal`). A notice without a `message_id` looks up
the string `"None"`, which is never a key.

This version of the plugin has no blacklist, no per-group monitoring, no text or
audio caching, no age- or size-based eviction, and no merged forwarding on recall.

A consequence of the code: a later image in the same message overwrites the entry
(main.py:94). If the earlier image had a different extension, its copy stays in the
cache directory with no entry referring to it. No recall or cleanup pass ever deletes
that file. `ShadowStore.OverwriteOrphansEarlierFile` proves this. This is why the
invariant only requires the disk to contain the entries' files, and does not require
the two to be equal.

## Model

| member | source | states |
|---|---|---|
| `Paths.SplitExtShape` | main.py:140 | the extension `splitext` finds is a suffix of the path, and is empty or a dot followed by no further dot or separator |
| `Paths.CacheFileNameShape` | main.py:140-143 | the cache file name is the message key followed by the source's extension, or by `.png` when the source has none |
| `Paths.Decimal` | main.py:94 | `str(message_id)` is non-empty and made of digits and a minus sign, so it holds no `/` or `.` and is never `"None"` |
| `Paths.DecimalRoundTrip` | main.py:94 | reading a cache key back as an integer gives the message id it came from |
| `Paths.DecimalInjective` | main.py:120 | two different message ids never share a cache key |
| `Paths.CacheDir` | main.py:33 | the cache directory `join(plugin_dir, "images")` ends in `images`, never in a separator |
| `Paths.CachePathIsJoin` | main.py:143-144 | for a decimal key, `os.path.join(cache_dir, name)` is the directory, `/` and the name: the join never discards the directory |
| `Paths.CachePathIsOwned` | main.py:143-144 | the path written for key `k` is `cache_dir/`, then `k`, then a non-empty extension |
| `Paths.CachePathKeepsExtension` | main.py:140-144 | `splitext` of the cache file gives back the source's extension, or `.png` when the source had none |
| `Paths.CachePathInjective` | main.py:143-144 | a path is the cache file of at most one key, so distinct keys have distinct files |
| `ShadowStore.ConsistentFilesDistinct` | main.py:94 | in every reachable state no two cache entries share a file |
| `ShadowStore.RemoveKeepsConsistent` | main.py:130 | deleting one entry and its file leaves every other entry with its file on disk |
| `ShadowStore.Materialized` | main.py:69-93 | only an image component, reached through the adapter event, whose `get_image` reply has a non-empty file and whose copy succeeded yields a source to cache |
| `ShadowStore.CopiedFromImage` | main.py:69-99 | every source the component loop copies is the non-empty `get_image` file of an image component, reached through the adapter event, whose copy succeeded; the lemma returns that component's index |
| `ShadowStore.NoImageCopiesNothing` | main.py:69-99 | a message with no image component reached through the adapter event and copied successfully copies nothing, so its store is unchanged |
| `ShadowStore.IngestPrefixCache` | main.py:69-99 | after the component loop, the key `str(message_id)` maps to the record of the last successfully copied image (path, sender id, sender name, time); with none copied the cache is unchanged; no other key changes |
| `ShadowStore.IngestPrefixDisk` | main.py:86-94 | the component loop adds exactly the cache files of the copied images to the disk and removes none |
| `ShadowStore.LastCopiedIsLastImage` | main.py:69-94 | when an image component was fetched and copied and no later one was, something was copied and the last copied source is that image's `get_image` file |
| `ShadowStore.IngestCachesLastImage` | main.py:57-99 | a monitored sender's message on aiocqhttp with an image that was fetched and copied creates the entry `str(message_id)`, holding the cache file of the last such image, the sender's id and name and the time; that file is on disk |
| `ShadowStore.IngestCopied` | main.py:69-99 | when an accepted message had at least one image copied, its key maps to the last copied image's record and every copied file is on disk |
| `ShadowStore.IngestWithoutCopyIsNoop` | main.py:57-66 | an empty or unmonitored sender, a platform other than `aiocqhttp`, or a message where every image failed, leaves cache and disk unchanged |
| `ShadowStore.IngestTouchesOnlyItsKey` | main.py:94 | ingestion writes only the key `str(message_id)`; every other entry keeps its record and no file leaves the disk |
| `ShadowStore.IngestStepKeepsConsistent` | main.py:91-99 | one component keeps the invariant: the file it writes is its key's own cache file |
| `ShadowStore.IngestKeepsConsistent` | main.py:69-105 | the whole component loop keeps the invariant |
| `ShadowStore.OverwriteOrphansEarlierFile` | main.py:91-99 | when a later image of the same message has a different cache file, the earlier file stays on disk and no entry refers to it |
| `ShadowStore.RecallTarget` | main.py:119-127 | a key is chosen only for a recall notice, and it is the cached key `str(message_id)` |
| `ShadowStore.RecallIgnoresOtherEvents` | main.py:112-119 | a non-dict raw message, another `post_type`, or a `notice_type` other than `group_recall`/`friend_recall` leaves the store unchanged |
| `ShadowStore.RecallMissIsNoop` | main.py:123-127 | recalling an uncached id, or a cached id by an unmonitored operator, leaves the store (and the entry) unchanged |
| `ShadowStore.RecallWithoutMessageIdIsNoop` | main.py:120 | a notice without `message_id` looks up `"None"`, which no consistent store holds, so nothing is removed |
| `ShadowStore.OperatorFallback` | main.py:121 | the operator is `operator_id` when it is present and non-zero, otherwise `str(user_id)` |
| `ShadowStore.RecallEffect` | main.py:127-131 | a hit removes exactly the recalled key from the cache and exactly its file from the disk; every other entry keeps its record and its file; a miss changes nothing; the invariant is kept |
| `ShadowStore.IngestThenRecallFindsRecord` | main.py:94-131 | a monitored sender's cached image, recalled by a monitored operator, is found and carries the original sender id and name |
| `ShadowStore.FailedFetchThenRecallIsNoop` | main.py:86-123 | for a message not cached before, when every image of it failed to be fetched or copied, a later recall of it finds nothing |
| `ShadowStore.CleanupEffect` | main.py:210-223 | one cleanup pass leaves no entry and deletes exactly the files some entry referred to |
| `ShadowStore.CleanupIdempotent` | main.py:212-213 | a pass over an empty cache changes nothing, so a second pass with no new entries is a no-op |
| `RecallGuard.SendToAll` | main.py:182-191 | every target session, in list order, gets one attempt with the same chain, whatever an earlier session answered |
| `RecallGuard.AntiRecallPlugin.constructor` | main.py:24-37 | the plugin starts with its cache directory at `join(plugin_dir, "images")`, an empty cache, the files already in that directory, and `running` set |
| `RecallGuard.AntiRecallPlugin.Terminate` | main.py:43-49 | `terminate` clears `running` |
| `RecallGuard.AntiRecallPlugin.CopyAndCacheImage` | main.py:134-150 | a successful copy returns the key's cache path and adds it to the disk; a failed copy returns `None` and changes nothing |
| `RecallGuard.AntiRecallPlugin.OnImageMessage` | main.py:53-105 | the handler's new cache and disk are those given by `ShadowStore.Ingest`, and the invariant is kept |
| `RecallGuard.AntiRecallPlugin.ForwardRecalledImage` | main.py:152-198 | with no target session nothing is sent; otherwise each session gets the prompt formatted with the sender's id and name, then the image; in both cases the record's file is deleted |
| `RecallGuard.AntiRecallPlugin.OnRecallNotice` | main.py:108-131 | the new state is `ShadowStore.Recall` of the old one; a hit forwards the removed record once to every session, and a miss sends nothing |
| `RecallGuard.AntiRecallPlugin.CleanupPass` | main.py:208-223 | one pass, from any state, pops every key present at its start and deletes each popped record's file and nothing else; the empty cache it leaves satisfies the invariant |
| `RecallGuard.AntiRecallPlugin.CleanupTick` | main.py:204-208 | while `running`, a turn of the loop is a full pass; after `terminate` it changes nothing and the loop ends |
| `CqhttpForwarder.CreateForwardNode` | cqhttp_forwarder.py:51-58 | the result is a `node` segment carrying `user_id`, `nickname` and `content` exactly as passed |
| `CqhttpForwarder.TextToSegment` | cqhttp_forwarder.py:60-62 | the result is a `text` segment whose text is the input |
| `CqhttpForwarder.LocalImageToSegment` | cqhttp_forwarder.py:64-69 | the result is an `image` segment whose file is a `file://` URI naming `abspath(path)` |
| `CqhttpForwarder.LocalAudioToSegment` | cqhttp_forwarder.py:71-76 | the result is a `record` segment whose file is a `file://` URI naming `abspath(path)` |
| `CqhttpForwarder.AudioIsImageWithRecordTag` | cqhttp_forwarder.py:66-76 | for the same path, the audio segment differs from the image segment only in its type tag |
| `CqhttpForwarder.FileUriRoundTrip` | cqhttp_forwarder.py:68 | the path a `file://` URI is built from is the path it names |
| `CqhttpForwarder.SendGroupForwardMessageByApi` | cqhttp_forwarder.py:9-36 | a missing client or one without `api` gives False and makes no call; otherwise exactly one `send_group_forward_msg` call is made with the group and nodes, and the result is True exactly when it does not raise |

## Left out

- The asyncio task, the 600-second sleep and the task's cancellation (main.py:37, main.py:49, main.py:206). One iteration of the loop is `CleanupTick`, and `running` is a field.
- Logging everywhere. A send outcome is only recorded in its `Attempt`, because the code only logs it.
- The AstrBot and aiocqhttp calls. `call_action('get_image')` and `context.send_message` become the inputs listed above. `call_action('send_group_forward_msg')` becomes the `BotClient` argument (no client, a client without `api`, a usable client) and the `callRaises` flag. The dynamically imported adapter event class becomes the `viaAdapterEvent` flag. An import failure is caught like any other exception and changes nothing.
- Real filesystem effects. `shutil.copy2`, `os.makedirs`, `os.path.exists` and `os.remove` act on the abstract `disk` set. A failed copy changes nothing, so a partial file it might leave is not modelled. `os.remove` of an existing file always succeeds. `os.path.abspath` is a parameter. Only POSIX `splitext` and `join` are modelled.
- `time.time()`. The timestamp is a parameter and is stored but never read.
- `str.format`. The prompt is the `format` parameter applied to the template, the sender id and the sender name. A template with other fields would make `format` raise after the entry was already deleted. That would leave the file on disk with nothing sent. The model does not capture this.
- Exceptions the code does not expect, such as one raised by `get_sender_name`, are not modelled.
- `IMAGE_CACHE` is a module global, so a second plugin instance in the same process would share it. The model makes it a field of the one plugin object.
- Python's dynamic typing. `monitored_users` and `target_sessions` are lists of strings. The sender id is a string. Message, operator and user ids are integers. A configuration entry that is missing is already at its default in `Config`.
- `RecallGuard.AntiRecallPlugin.OnImageMessage`: it is one atomic step. The code suspends at `get_image` (main.py:84), so other handlers can run in between; the copy and the `IMAGE_CACHE` write after it run without suspending. For example, a recall of a message can arrive while its images are still being fetched: the recall misses, the image is cached afterwards, and it is never forwarded. `ShadowStore.IngestThenRecallFindsRecord` holds only when the two handlers run one after the other.
- `RecallGuard.AntiRecallPlugin.OnRecallNotice`: it is one atomic step. The code suspends at each `send_message` (main.py:185), so a new image message or a cleanup pass can interleave with the forwarding; with no target session it does not suspend at all. The model does not capture these interleavings.
- `RecallGuard.AntiRecallPlugin.CleanupPass`: it takes the keys in an arbitrary order, not the dictionary's insertion order, because the order does not change the resulting state.
