/** The recall-shadow cache as values: what the plugin keeps, what each handler does
    to it, and the invariant that ties the in-memory entries to the files on disk.

    The plugin's state is a `Store`: the dictionary `IMAGE_CACHE` (message key to
    record) and the set of files present in the cache directory. The image, recall and
    cleanup handlers of the `RecallGuard.AntiRecallPlugin` class are proved to change
    their state exactly as the functions here say; the lemmas here state what those
    functions promise. */
module ShadowStore {
  import opened Wrappers
  import opened Paths

  /** One `IMAGE_CACHE` value: the cached file, the sender as captured at ingestion,
      and the ingestion time (stored, never read). */
  datatype Record = Record(path: string, senderId: string, senderName: string, timestamp: int)

  /** `IMAGE_CACHE` together with the files present in the cache directory. The
      directory may hold files no record refers to. */
  datatype Store = Store(cache: map<string, Record>, disk: set<string>)

  /** Every key is a non-empty string of digits and minus signs (as every
      `str(message_id)` is), its record's file is the key's cache file
      (`cache_dir/<key><ext>`), and that file exists. */
  predicate Consistent(dir: string, s: Store) {
    forall k {:trigger s.cache[k]} | k in s.cache ::
      IsDecimal(k) && IsCachePathOf(dir, k, s.cache[k].path) && s.cache[k].path in s.disk
  }

  /** The files the records refer to. */
  function RecordFiles(cache: map<string, Record>): set<string> {
    set k | k in cache :: cache[k].path
  }

  /** No two records share a file. */
  predicate FilesDistinct(cache: map<string, Record>) {
    forall k1, k2 | k1 in cache && k2 in cache && k1 != k2 :: cache[k1].path != cache[k2].path
  }

  /** In a consistent store no two records share a file, because a cache file names
      its key. */
  lemma ConsistentFilesDistinct(dir: string, s: Store)
    requires Consistent(dir, s)
    ensures FilesDistinct(s.cache)
  {
    forall k1, k2 | k1 in s.cache && k2 in s.cache && k1 != k2
      ensures s.cache[k1].path != s.cache[k2].path
    {
      if s.cache[k1].path == s.cache[k2].path {
        CachePathInjective(dir, k1, k2, s.cache[k1].path);
      }
    }
  }

  /** Removing one record and deleting its file keeps the store consistent: the file
      deleted belongs to no other record. */
  lemma RemoveKeepsConsistent(dir: string, s: Store, k: string)
    requires Consistent(dir, s) && k in s.cache
    ensures Consistent(dir, Store(s.cache - {k}, s.disk - {s.cache[k].path}))
  {
    ConsistentFilesDistinct(dir, s);
  }

  // ---------------------------------------------------------------------------
  // Ingest (on_image_message)

  const Platform: string := "aiocqhttp"

  /** A component of an inbound message chain. Only images matter here. */
  datatype Component = Plain(text: string) | Image(file: string) | OtherComponent

  /** What the handler reads from an inbound message event. `viaAdapterEvent` says
      whether the event object is the aiocqhttp adapter's own event class, through
      which the bot client is reached. */
  datatype MessageEvent = MessageEvent(
    senderId: string,
    senderName: string,
    platform: string,
    viaAdapterEvent: bool,
    messageId: int,
    components: seq<Component>)

  /** Outcome of the `get_image` action: it raised, or it replied. A reply without a
      usable file (`None`, no `'file'` entry, an empty path) has `file == ""`. */
  datatype GetImageReply = Raised | Reply(file: string)

  /** What the outside world does for one component: the `get_image` outcome and
      whether `shutil.copy2` into the cache directory succeeded. */
  datatype ImageFetch = ImageFetch(reply: GetImageReply, copyOk: bool)

  /** The plugin configuration, with each missing entry already at its default. */
  datatype Config = Config(
    monitoredUsers: seq<string>,
    targetSessions: seq<string>,
    forwardMessageText: Option<string>)

  /** The gate in front of ingestion: a non-empty, monitored sender on aiocqhttp. */
  predicate Accepts(ev: MessageEvent, monitored: seq<string>) {
    ev.senderId != "" && ev.senderId in monitored && ev.platform == Platform
  }

  /** The source file a component gets copied from, when it is an image whose
      `get_image` returned a file and whose copy succeeded; `None` otherwise. */
  function Materialized(ev: MessageEvent, c: Component, f: ImageFetch): (src: Option<string>)
    ensures src.Some? ==> c.Image? && ev.viaAdapterEvent && f.copyOk && src.value != "" && f.reply == Reply(src.value)
  {
    if c.Image? && ev.viaAdapterEvent && f.reply.Reply? && f.reply.file != "" && f.copyOk
    then Some(f.reply.file)
    else None
  }

  /** The record ingestion writes for a file copied from `src`. */
  function NewRecord(dir: string, ev: MessageEvent, src: string, now: int): Record {
    Record(CachePath(dir, Decimal(ev.messageId), src), ev.senderId, ev.senderName, now)
  }

  /** The effect of one component on the store. */
  function IngestStep(dir: string, s: Store, ev: MessageEvent, c: Component, f: ImageFetch, now: int): Store {
    match Materialized(ev, c, f)
    case None => s
    case Some(src) =>
      var r := NewRecord(dir, ev, src, now);
      Store(s.cache[Decimal(ev.messageId) := r], s.disk + {r.path})
  }

  /** The store after the first `n` components of an accepted message. */
  function IngestPrefix(dir: string, s: Store, ev: MessageEvent, fetches: seq<ImageFetch>, now: int, n: nat): Store
    requires n <= |ev.components| == |fetches|
  {
    if n == 0 then s
    else IngestStep(dir, IngestPrefix(dir, s, ev, fetches, now, n - 1), ev, ev.components[n - 1], fetches[n - 1], now)
  }

  /** The store after `on_image_message` handled `ev`. */
  function Ingest(dir: string, s: Store, ev: MessageEvent, fetches: seq<ImageFetch>, now: int, monitored: seq<string>): Store
    requires |ev.components| == |fetches|
  {
    if Accepts(ev, monitored) then IngestPrefix(dir, s, ev, fetches, now, |ev.components|) else s
  }

  /** The source files of the first `n` components that got copied, in message order. */
  function Copied(ev: MessageEvent, fetches: seq<ImageFetch>, n: nat): (srcs: seq<string>)
    requires n <= |ev.components| == |fetches|
    ensures |srcs| <= n
  {
    if n == 0 then []
    else match Materialized(ev, ev.components[n - 1], fetches[n - 1])
      case None => Copied(ev, fetches, n - 1)
      case Some(src) => Copied(ev, fetches, n - 1) + [src]
  }

  /** Only images add entries: every copied source is the `get_image` file of an image
      component among the first `n`, reached through the adapter event, whose copy
      succeeded. The result is the index of that component. */
  lemma {:induction false} CopiedFromImage(ev: MessageEvent, fetches: seq<ImageFetch>, n: nat, j: nat) returns (i: nat)
    requires n <= |ev.components| == |fetches|
    requires j < |Copied(ev, fetches, n)|
    ensures i < n && FromImage(ev, fetches, i, Copied(ev, fetches, n)[j])
  {
    var before := Copied(ev, fetches, n - 1);
    match Materialized(ev, ev.components[n - 1], fetches[n - 1])
    case None =>
      assert Copied(ev, fetches, n) == before;
      i := CopiedFromImage(ev, fetches, n - 1, j);
    case Some(src) =>
      assert Copied(ev, fetches, n) == before + [src];
      if j < |before| {
        i := CopiedFromImage(ev, fetches, n - 1, j);
      } else {
        i := n - 1;
      }
  }

  /** Component `i` is an image reached through the adapter event, whose `get_image`
      reply named the non-empty file `src` and whose copy succeeded. */
  predicate FromImage(ev: MessageEvent, fetches: seq<ImageFetch>, i: nat, src: string)
    requires i < |ev.components| == |fetches|
  {
    ev.components[i].Image? && ev.viaAdapterEvent && fetches[i].copyOk && src != "" && fetches[i].reply == Reply(src)
  }

  /** A message with no image component reached through the adapter event, or whose
      every copy failed, copies nothing. */
  lemma {:induction false} NoImageCopiesNothing(ev: MessageEvent, fetches: seq<ImageFetch>, n: nat)
    requires n <= |ev.components| == |fetches|
    requires forall i | 0 <= i < n :: !(ev.components[i].Image? && ev.viaAdapterEvent && fetches[i].copyOk)
    ensures Copied(ev, fetches, n) == []
  {
    if Copied(ev, fetches, n) != [] {
      var i := CopiedFromImage(ev, fetches, n, 0);
    }
  }

  /** The cache files written for the copied sources `srcs` of one message. */
  function CopiedFiles(dir: string, key: string, srcs: seq<string>): set<string> {
    if srcs == [] then {} else CopiedFiles(dir, key, srcs[..|srcs| - 1]) + {CachePath(dir, key, srcs[|srcs| - 1])}
  }

  lemma CopiedFilesSnoc(dir: string, key: string, before: seq<string>, src: string)
    ensures CopiedFiles(dir, key, before + [src]) == CopiedFiles(dir, key, before) + {CachePath(dir, key, src)}
  {
    var srcs := before + [src];
    assert srcs[..|srcs| - 1] == before;
  }

  lemma MapUpdateTwice(m: map<string, Record>, k: string, r1: Record, r2: Record)
    ensures m[k := r1][k := r2] == m[k := r2]
  {
  }

  /** What the first `n` components do to the cache: nothing when none of them was
      copied; otherwise the message's key maps to the record of the LAST copied image
      (a later image overwrites an earlier one), and no other key is touched. */
  lemma {:induction false} IngestPrefixCache(dir: string, s: Store, ev: MessageEvent, fetches: seq<ImageFetch>, now: int, n: nat)
    requires n <= |ev.components| == |fetches|
    ensures var srcs := Copied(ev, fetches, n);
            IngestPrefix(dir, s, ev, fetches, now, n).cache
              == if srcs == [] then s.cache
                 else s.cache[Decimal(ev.messageId) := NewRecord(dir, ev, srcs[|srcs| - 1], now)]
  {
    if n > 0 {
      IngestPrefixCache(dir, s, ev, fetches, now, n - 1);
      var key := Decimal(ev.messageId);
      var prev := IngestPrefix(dir, s, ev, fetches, now, n - 1).cache;
      var before := Copied(ev, fetches, n - 1);
      match Materialized(ev, ev.components[n - 1], fetches[n - 1])
      case None =>
        assert Copied(ev, fetches, n) == before;
      case Some(src) =>
        var rec := NewRecord(dir, ev, src, now);
        assert IngestPrefix(dir, s, ev, fetches, now, n).cache == prev[key := rec];
        assert Copied(ev, fetches, n) == before + [src];
        if before != [] {
          MapUpdateTwice(s.cache, key, NewRecord(dir, ev, before[|before| - 1], now), rec);
        }
    }
  }

  /** What the first `n` components do to the disk: every copied file is added, and
      nothing is removed. */
  lemma {:induction false} IngestPrefixDisk(dir: string, s: Store, ev: MessageEvent, fetches: seq<ImageFetch>, now: int, n: nat)
    requires n <= |ev.components| == |fetches|
    ensures IngestPrefix(dir, s, ev, fetches, now, n).disk
              == s.disk + CopiedFiles(dir, Decimal(ev.messageId), Copied(ev, fetches, n))
  {
    if n > 0 {
      IngestPrefixDisk(dir, s, ev, fetches, now, n - 1);
      var prev := IngestPrefix(dir, s, ev, fetches, now, n - 1);
      var before := Copied(ev, fetches, n - 1);
      match Materialized(ev, ev.components[n - 1], fetches[n - 1])
      case None =>
        assert Copied(ev, fetches, n) == before;
        assert IngestPrefix(dir, s, ev, fetches, now, n) == prev;
      case Some(src) =>
        var key := Decimal(ev.messageId);
        assert Copied(ev, fetches, n) == before + [src];
        assert IngestPrefix(dir, s, ev, fetches, now, n).disk == prev.disk + {CachePath(dir, key, src)};
        CopiedFilesSnoc(dir, key, before, src);
    }
  }

  /** A message the gate rejects, or whose images all failed (fetch raised, no file,
      copy failed, or no image at all), leaves the store exactly as it was. */
  lemma IngestWithoutCopyIsNoop(dir: string, s: Store, ev: MessageEvent, fetches: seq<ImageFetch>, now: int, monitored: seq<string>)
    requires |ev.components| == |fetches|
    requires !Accepts(ev, monitored) || Copied(ev, fetches, |fetches|) == []
    ensures Ingest(dir, s, ev, fetches, now, monitored) == s
  {
    if Accepts(ev, monitored) {
      IngestPrefixCache(dir, s, ev, fetches, now, |fetches|);
      IngestPrefixDisk(dir, s, ev, fetches, now, |fetches|);
    }
  }

  /** Ingestion only ever writes the key `str(message_id)`: every other entry keeps
      its record, and no file leaves the disk. */
  lemma IngestTouchesOnlyItsKey(dir: string, s: Store, ev: MessageEvent, fetches: seq<ImageFetch>, now: int, monitored: seq<string>)
    requires |ev.components| == |fetches|
    ensures var r := Ingest(dir, s, ev, fetches, now, monitored);
            && s.disk <= r.disk
            && r.cache.Keys <= s.cache.Keys + {Decimal(ev.messageId)}
            && forall k | k in s.cache && k != Decimal(ev.messageId) :: k in r.cache && r.cache[k] == s.cache[k]
  {
    if Accepts(ev, monitored) {
      IngestPrefixCache(dir, s, ev, fetches, now, |fetches|);
      IngestPrefixDisk(dir, s, ev, fetches, now, |fetches|);
    }
  }

  /** One component keeps the store consistent: the file it writes is its key's own
      cache file, and no file is removed. */
  lemma IngestStepKeepsConsistent(dir: string, s: Store, ev: MessageEvent, c: Component, f: ImageFetch, now: int)
    requires Consistent(dir, s)
    ensures Consistent(dir, IngestStep(dir, s, ev, c, f, now))
  {
    match Materialized(ev, c, f)
    case None =>
    case Some(src) =>
      CachePathIsOwned(dir, Decimal(ev.messageId), src);
  }

  /** `on_image_message` keeps the store consistent. */
  lemma {:induction false} IngestKeepsConsistent(dir: string, s: Store, ev: MessageEvent, fetches: seq<ImageFetch>, now: int, n: nat)
    requires n <= |ev.components| == |fetches|
    requires Consistent(dir, s)
    ensures Consistent(dir, IngestPrefix(dir, s, ev, fetches, now, n))
  {
    if n > 0 {
      IngestKeepsConsistent(dir, s, ev, fetches, now, n - 1);
      IngestStepKeepsConsistent(dir, IngestPrefix(dir, s, ev, fetches, now, n - 1), ev, ev.components[n - 1], fetches[n - 1], now);
    }
  }

  /** Every copied source's cache file is among the files written. */
  lemma {:induction false} CopiedFileWritten(dir: string, key: string, srcs: seq<string>, i: nat)
    requires i < |srcs|
    ensures CachePath(dir, key, srcs[i]) in CopiedFiles(dir, key, srcs)
  {
    if i < |srcs| - 1 {
      CopiedFileWritten(dir, key, srcs[..|srcs| - 1], i);
    }
  }

  /** An accepted message with at least one copied image: its key maps to the record
      of the last copied image, and every copied file is on disk. */
  lemma IngestCopied(dir: string, s: Store, ev: MessageEvent, fetches: seq<ImageFetch>, now: int, monitored: seq<string>)
    requires |ev.components| == |fetches| && Accepts(ev, monitored)
    requires Copied(ev, fetches, |fetches|) != []
    ensures var srcs := Copied(ev, fetches, |fetches|);
            var key := Decimal(ev.messageId);
            Ingest(dir, s, ev, fetches, now, monitored)
              == Store(s.cache[key := NewRecord(dir, ev, srcs[|srcs| - 1], now)], s.disk + CopiedFiles(dir, key, srcs))
  {
    IngestPrefixCache(dir, s, ev, fetches, now, |fetches|);
    IngestPrefixDisk(dir, s, ev, fetches, now, |fetches|);
  }

  /** Component `i` is an image reached through the adapter event, `get_image` named a
      file for it, and the copy into the cache directory succeeded. */
  predicate ImageCached(ev: MessageEvent, fetches: seq<ImageFetch>, i: nat)
    requires i < |ev.components| == |fetches|
  {
    && ev.components[i].Image? && ev.viaAdapterEvent
    && fetches[i].reply.Reply? && fetches[i].reply.file != "" && fetches[i].copyOk
  }

  /** When component `i` was cached and no later one among the first `n` was, the
      last copied source is component `i`'s `get_image` file. */
  lemma {:induction false} LastCopiedIsLastImage(ev: MessageEvent, fetches: seq<ImageFetch>, n: nat, i: nat)
    requires i < n <= |ev.components| == |fetches|
    requires ImageCached(ev, fetches, i)
    requires forall j | i < j < n :: !ImageCached(ev, fetches, j)
    ensures var srcs := Copied(ev, fetches, n);
            srcs != [] && srcs[|srcs| - 1] == fetches[i].reply.file
  {
    if i == n - 1 {
      assert Copied(ev, fetches, n) == Copied(ev, fetches, n - 1) + [fetches[i].reply.file];
    } else {
      assert !ImageCached(ev, fetches, n - 1);
      assert Copied(ev, fetches, n) == Copied(ev, fetches, n - 1);
      LastCopiedIsLastImage(ev, fetches, n - 1, i);
    }
  }

  /** A monitored sender's message with an image that was fetched and copied creates
      the entry `str(message_id)`: it holds the cache file of the LAST such image, the
      sender's id and name and the ingestion time, and that file is on disk. */
  lemma IngestCachesLastImage(dir: string, s: Store, ev: MessageEvent, fetches: seq<ImageFetch>, now: int,
                              monitored: seq<string>, i: nat)
    requires |ev.components| == |fetches| && Accepts(ev, monitored)
    requires i < |fetches| && ImageCached(ev, fetches, i)
    requires forall j | i < j < |fetches| :: !ImageCached(ev, fetches, j)
    ensures var r := Ingest(dir, s, ev, fetches, now, monitored);
            var key := Decimal(ev.messageId);
            var path := CachePath(dir, key, fetches[i].reply.file);
            && key in r.cache
            && r.cache[key] == Record(path, ev.senderId, ev.senderName, now)
            && path in r.disk
  {
    LastCopiedIsLastImage(ev, fetches, |fetches|, i);
    IngestCopied(dir, s, ev, fetches, now, monitored);
    var srcs := Copied(ev, fetches, |fetches|);
    CopiedFileWritten(dir, Decimal(ev.messageId), srcs, |srcs| - 1);
  }

  /** A later image of the same message overwrites the entry (main.py keeps one record
      per message), but when the earlier image had a different extension its file
      stays on disk with no record referring to it, so neither a recall nor a cleanup
      pass ever deletes it. */
  lemma OverwriteOrphansEarlierFile(dir: string, s: Store, ev: MessageEvent, fetches: seq<ImageFetch>, now: int,
                                    monitored: seq<string>, i: nat)
    requires Consistent(dir, s)
    requires |ev.components| == |fetches| && Accepts(ev, monitored)
    requires var srcs := Copied(ev, fetches, |fetches|);
             && i < |srcs|
             && ExtOrDefault(SplitExt(srcs[i])) != ExtOrDefault(SplitExt(srcs[|srcs| - 1]))
    ensures var r := Ingest(dir, s, ev, fetches, now, monitored);
            var orphan := CachePath(dir, Decimal(ev.messageId), Copied(ev, fetches, |fetches|)[i]);
            orphan in r.disk && orphan !in RecordFiles(r.cache)
  {
    var key := Decimal(ev.messageId);
    var srcs := Copied(ev, fetches, |fetches|);
    IngestCopied(dir, s, ev, fetches, now, monitored);
    OrphanAfterOverwrite(dir, s, key, srcs, NewRecord(dir, ev, srcs[|srcs| - 1], now),
                         Ingest(dir, s, ev, fetches, now, monitored), i);
  }

  /** The store after writing `last` under `key` and the cache files of `srcs`: a file
      among those that `last` does not use is on disk and used by no record. */
  lemma OrphanAfterOverwrite(dir: string, s: Store, key: string, srcs: seq<string>, last: Record, r: Store, i: nat)
    requires Consistent(dir, s) && IsDecimal(key)
    requires r == Store(s.cache[key := last], s.disk + CopiedFiles(dir, key, srcs))
    requires i < |srcs| && last.path == CachePath(dir, key, srcs[|srcs| - 1])
    requires ExtOrDefault(SplitExt(srcs[i])) != ExtOrDefault(SplitExt(srcs[|srcs| - 1]))
    ensures CachePath(dir, key, srcs[i]) in r.disk && CachePath(dir, key, srcs[i]) !in RecordFiles(r.cache)
  {
    CachePathsDiffer(dir, key, srcs[i], srcs[|srcs| - 1]);
    CopiedFileWritten(dir, key, srcs, i);
    CachePathIsOwned(dir, key, srcs[i]);
    UnreferencedCacheFile(dir, s, key, last, CachePath(dir, key, srcs[i]));
  }

  /** A cache file of `key` that the record now stored under `key` does not use is
      used by no record at all. */
  lemma UnreferencedCacheFile(dir: string, s: Store, key: string, rec: Record, p: string)
    requires Consistent(dir, s) && IsDecimal(key) && IsCachePathOf(dir, key, p) && rec.path != p
    ensures p !in RecordFiles(s.cache[key := rec])
  {
    var m := s.cache[key := rec];
    forall k | k in m ensures m[k].path != p {
      if k != key && m[k].path == p {
        CachePathInjective(dir, k, key, p);
      }
    }
  }

  // ---------------------------------------------------------------------------
  // Recall (on_recall_notice)

  /** The event's `raw_message`: not a dict at all, or a dict with the entries the
      handler reads (each possibly absent). */
  datatype RawEvent =
    | NotADict
    | RawDict(
        postType: Option<string>,
        noticeType: Option<string>,
        messageId: Option<int>,
        operatorId: Option<int>,
        userId: Option<int>)

  /** A dict whose `post_type` is `notice` and whose `notice_type` is a group or
      friend recall. */
  predicate IsRecallNotice(raw: RawEvent) {
    && raw.RawDict?
    && raw.postType == Some("notice")
    && (raw.noticeType == Some("group_recall") || raw.noticeType == Some("friend_recall"))
  }

  /** `str(v)` for a value read with `dict.get`: `"None"` when absent. */
  function PyStr(v: Option<int>): string {
    match v
    case None => "None"
    case Some(n) => Decimal(n)
  }

  /** Python truthiness of an optional int. */
  predicate Truthy(v: Option<int>) {
    v.Some? && v.value != 0
  }

  /** `str(raw.get("message_id"))`. */
  function RecalledKey(raw: RawEvent): string
    requires raw.RawDict?
  {
    PyStr(raw.messageId)
  }

  /** `str(raw.get("operator_id") or raw.get("user_id"))`. */
  function OperatorId(raw: RawEvent): string
    requires raw.RawDict?
  {
    if Truthy(raw.operatorId) then PyStr(raw.operatorId) else PyStr(raw.userId)
  }

  /** The key a recall notice removes and forwards, if any: the notice must be a
      recall, its message must be cached, and its operator must be monitored. */
  function RecallTarget(cache: map<string, Record>, raw: RawEvent, monitored: seq<string>): (r: Option<string>)
    ensures r.Some? ==> IsRecallNotice(raw) && r.value == RecalledKey(raw) && r.value in cache
  {
    if IsRecallNotice(raw) && RecalledKey(raw) in cache && OperatorId(raw) in monitored
    then Some(RecalledKey(raw))
    else None
  }

  /** A recall notice without a `message_id` looks up `"None"`, which is never a key of
      a consistent store: nothing is removed. */
  lemma RecallWithoutMessageIdIsNoop(dir: string, s: Store, raw: RawEvent, monitored: seq<string>)
    requires Consistent(dir, s)
    requires raw.RawDict? && raw.messageId.None?
    ensures RecallTarget(s.cache, raw, monitored) == None
  {
    assert !IsDecimal("None") by { assert "None"[0] == 'N'; }
  }

  /** The operator falls back to `user_id` exactly when `operator_id` is absent or 0. */
  lemma OperatorFallback(raw: RawEvent)
    requires raw.RawDict?
    ensures raw.operatorId.Some? && raw.operatorId.value != 0 ==> OperatorId(raw) == Decimal(raw.operatorId.value)
    ensures (raw.operatorId.None? || raw.operatorId == Some(0)) ==> OperatorId(raw) == PyStr(raw.userId)
  {
  }

  /** Only a dict `raw_message` with `post_type == "notice"` and a group or friend
      recall `notice_type` can change the store. */
  lemma RecallIgnoresOtherEvents(s: Store, raw: RawEvent, monitored: seq<string>)
    requires !IsRecallNotice(raw)
    ensures Recall(s, raw, monitored) == s
  {
  }

  /** Recalling a message that is not cached, or one recalled by an operator who is
      not monitored, leaves the store as it was (the entry stays in place). */
  lemma RecallMissIsNoop(s: Store, raw: RawEvent, monitored: seq<string>)
    requires raw.RawDict?
    requires RecalledKey(raw) !in s.cache || OperatorId(raw) !in monitored
    ensures Recall(s, raw, monitored) == s
  {
  }

  /** The store after a recall notice: the target's entry is gone and its file deleted;
      every other entry, and every other record's file, stays. */
  function Recall(s: Store, raw: RawEvent, monitored: seq<string>): Store {
    match RecallTarget(s.cache, raw, monitored)
    case None => s
    case Some(k) => Store(s.cache - {k}, s.disk - {s.cache[k].path})
  }

  /** A recall keeps the store consistent; when it hits, exactly one key is removed and
      every remaining record keeps its value and its file. */
  lemma RecallEffect(dir: string, s: Store, raw: RawEvent, monitored: seq<string>)
    requires Consistent(dir, s)
    ensures Consistent(dir, Recall(s, raw, monitored))
    ensures var r := Recall(s, raw, monitored);
            match RecallTarget(s.cache, raw, monitored)
            case None => r == s
            case Some(k) =>
              && r.cache.Keys == s.cache.Keys - {k}
              && (forall k' | k' in r.cache :: r.cache[k'] == s.cache[k'] && r.cache[k'].path in r.disk)
              && r.disk == s.disk - {s.cache[k].path}
  {
    match RecallTarget(s.cache, raw, monitored)
    case None =>
    case Some(k) => RemoveKeepsConsistent(dir, s, k);
  }

  /** A monitored sender's image that got cached is forwarded when that message is
      recalled by a monitored operator: the recall finds exactly the record ingestion
      wrote, carrying the original sender. */
  lemma IngestThenRecallFindsRecord(dir: string, s: Store, ev: MessageEvent, fetches: seq<ImageFetch>, now: int,
                                    monitored: seq<string>, raw: RawEvent)
    requires |ev.components| == |fetches|
    requires Accepts(ev, monitored) && Copied(ev, fetches, |fetches|) != []
    requires IsRecallNotice(raw) && raw.messageId == Some(ev.messageId) && OperatorId(raw) in monitored
    ensures var r := Ingest(dir, s, ev, fetches, now, monitored);
            && RecallTarget(r.cache, raw, monitored) == Some(Decimal(ev.messageId))
            && r.cache[Decimal(ev.messageId)].senderId == ev.senderId
            && r.cache[Decimal(ev.messageId)].senderName == ev.senderName
  {
    IngestPrefixCache(dir, s, ev, fetches, now, |fetches|);
    IngestPrefixDisk(dir, s, ev, fetches, now, |fetches|);
  }

  /** When every image of a message failed to be fetched or copied and the message was
      not cached before, a later recall of it finds nothing. */
  lemma FailedFetchThenRecallIsNoop(dir: string, s: Store, ev: MessageEvent, fetches: seq<ImageFetch>, now: int,
                                    monitored: seq<string>, raw: RawEvent)
    requires |ev.components| == |fetches|
    requires Copied(ev, fetches, |fetches|) == [] && Decimal(ev.messageId) !in s.cache
    requires raw.RawDict? && raw.messageId == Some(ev.messageId)
    ensures RecallTarget(Ingest(dir, s, ev, fetches, now, monitored).cache, raw, monitored) == None
  {
    IngestWithoutCopyIsNoop(dir, s, ev, fetches, now, monitored);
  }

  // ---------------------------------------------------------------------------
  // Forward (_forward_recalled_image)

  /** An outbound message component: the prompt text, or an image read from a file. */
  datatype Part = PlainPart(text: string) | ImagePart(path: string)

  /** What `context.send_message` did for one session: it returned a success flag, or
      it raised. The handler only logs this. */
  datatype SendOutcome = Delivered(success: bool) | SendRaised

  /** One send attempt: the session, the chain sent, and what came back. */
  datatype Attempt = Attempt(session: string, chain: seq<Part>, outcome: SendOutcome)

  const DefaultTemplate: string := "检测到用户 {user_name}({user_id}) 撤回了一张图片："

  /** `config.get("forward_message_text", <default>)`. */
  function Template(cfg: Config): string {
    match cfg.forwardMessageText
    case None => DefaultTemplate
    case Some(t) => t
  }

  /** The chain forwarded for a record: the prompt, then the cached image. */
  function ForwardChain(rec: Record, prompt: string): (chain: seq<Part>)
    ensures |chain| == 2 && chain[0] == PlainPart(prompt) && chain[1] == ImagePart(rec.path)
  {
    [PlainPart(prompt), ImagePart(rec.path)]
  }

  // ---------------------------------------------------------------------------
  // Cleanup (one iteration of _periodic_cleanup)

  /** The store after one cleanup pass: no entry left, and the files of the popped
      records deleted. */
  function Cleanup(s: Store): Store {
    Store(map[], s.disk - RecordFiles(s.cache))
  }

  /** A cleanup pass empties the cache and deletes exactly the files some record
      referred to; every other file stays. */
  lemma CleanupEffect(s: Store)
    ensures Cleanup(s).cache == map[]
    ensures Cleanup(s).disk <= s.disk
    ensures forall p | p in s.disk :: p in Cleanup(s).disk <==> !exists k | k in s.cache :: s.cache[k].path == p
  {
    forall p | p in s.disk && exists k | k in s.cache :: s.cache[k].path == p
      ensures p in RecordFiles(s.cache)
    {
      var k :| k in s.cache && s.cache[k].path == p;
    }
  }

  /** The files the records under `keys` refer to. */
  function FilesOf(cache: map<string, Record>, keys: set<string>): set<string> {
    set k | k in keys && k in cache :: cache[k].path
  }

  lemma FilesOfAdd(cache: map<string, Record>, keys: set<string>, k: string)
    requires k in cache
    ensures FilesOf(cache, keys + {k}) == FilesOf(cache, keys) + {cache[k].path}
  {
  }

  /** A pass over an empty cache changes nothing, so a second pass with no ingestion
      in between is a no-op. */
  lemma CleanupIdempotent(s: Store)
    ensures Cleanup(Cleanup(s)) == Cleanup(s)
    ensures s.cache == map[] ==> Cleanup(s) == s
  {
  }
}
