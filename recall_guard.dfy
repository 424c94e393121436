/** The `AntiRecallPlugin` handlers as imperative code over the plugin's state.

    The plugin object holds the process-wide `IMAGE_CACHE` dictionary (`cache`), the
    set of files in its cache directory (`disk`) and the `running` flag of its
    background cleanup task. The image, recall and cleanup handlers are proved to
    change that state exactly as the corresponding function of `ShadowStore` says,
    and to keep `Valid()`: every entry's file is `cache_dir/<key><ext>` and exists.
    Outside effects are inputs: the `get_image` replies and copy outcomes
    (`ImageFetch`, one per message component), the outcome of each `send_message`
    (`SendOutcome`, one per target session), the ingestion time, and Python's
    `str.format` (`format`). */
module RecallGuard {
  import opened Wrappers
  import opened Paths
  import opened ShadowStore

  /** Sends one chain to every session in order. What a session answers (success,
      failure, an exception) is only recorded: every session gets its attempt. */
  method SendToAll(sessions: seq<string>, chain: seq<Part>, outcomes: seq<SendOutcome>) returns (attempts: seq<Attempt>)
    requires |outcomes| == |sessions|
    ensures |attempts| == |sessions|
    ensures forall i | 0 <= i < |sessions| :: attempts[i] == Attempt(sessions[i], chain, outcomes[i])
  {
    attempts := [];
    for i := 0 to |sessions|
      invariant |attempts| == i
      invariant forall j | 0 <= j < i :: attempts[j] == Attempt(sessions[j], chain, outcomes[j])
    {
      attempts := attempts + [Attempt(sessions[i], chain, outcomes[i])];
    }
  }

  class AntiRecallPlugin {
    /** The cache directory, `images` in the plugin's own directory. */
    const cacheDir: string
    /** `template.format(user_id=..., user_name=...)`, applied as (template, id, name). */
    const format: (string, string, string) -> string
    /** The live plugin configuration; the handlers only read it. */
    var config: Config
    var running: bool
    /** `IMAGE_CACHE`. */
    var cache: map<string, Record>
    /** Files present in the cache directory. */
    var disk: set<string>

    ghost predicate Valid()
      reads this
    {
      Consistent(cacheDir, Store(cache, disk))
    }

    /** Plugin start: an empty cache, whatever files a previous run left behind, and
        the cleanup loop running. */
    constructor (pluginDir: string, config: Config, format: (string, string, string) -> string, leftovers: set<string>)
      ensures Valid()
      ensures cacheDir == Join(pluginDir, "images") && this.config == config && this.format == format
      ensures running && cache == map[] && disk == leftovers
    {
      cacheDir := CacheDir(pluginDir);
      this.config := config;
      this.format := format;
      running := true;
      cache := map[];
      disk := leftovers;
    }

    /** `terminate`: clears `running`, which ends the cleanup loop. */
    method Terminate()
      modifies this`running
      ensures !running
    {
      running := false;
    }

    /** `_copy_and_cache_image`: copies the file into the cache directory under the
        message key and the source's extension, or `.png`; `None` when the copy fails. */
    method CopyAndCacheImage(sourcePath: string, key: string, copyOk: bool) returns (path: Option<string>)
      modifies this`disk
      ensures path == if copyOk then Some(CachePath(cacheDir, key, sourcePath)) else None
      ensures disk == if copyOk then old(disk) + {CachePath(cacheDir, key, sourcePath)} else old(disk)
    {
      var destPath := CachePath(cacheDir, key, sourcePath);
      if copyOk {
        disk := disk + {destPath};
        path := Some(destPath);
      } else {
        path := None;
      }
    }

    /** `on_image_message`: the sender and platform gate, then one step per component. */
    method OnImageMessage(ev: MessageEvent, fetches: seq<ImageFetch>, now: int)
      requires Valid()
      requires |fetches| == |ev.components|
      modifies this`cache, this`disk
      ensures Valid()
      ensures Store(cache, disk) == Ingest(cacheDir, old(Store(cache, disk)), ev, fetches, now, config.monitoredUsers)
    {
      if ev.senderId == "" || ev.senderId !in config.monitoredUsers {
        return;
      }
      if ev.platform != Platform {
        return;
      }
      ghost var s0 := Store(cache, disk);
      var key := Decimal(ev.messageId);
      for i := 0 to |ev.components|
        invariant Valid()
        invariant Store(cache, disk) == IngestPrefix(cacheDir, s0, ev, fetches, now, i)
      {
        var component, fetch := ev.components[i], fetches[i];
        IngestStepKeepsConsistent(cacheDir, Store(cache, disk), ev, component, fetch, now);
        if component.Image? && ev.viaAdapterEvent && fetch.reply.Reply? && fetch.reply.file != "" {
          var filePath := CopyAndCacheImage(fetch.reply.file, key, fetch.copyOk);
          if filePath.Some? {
            cache := cache[key := Record(filePath.value, ev.senderId, ev.senderName, now)];
          }
        }
      }
    }

    /** `_forward_recalled_image`: sends the prompt and the image to every target
        session, then deletes the record's file; with no target, only deletes it. */
    method ForwardRecalledImage(rec: Record, outcomes: seq<SendOutcome>) returns (attempts: seq<Attempt>)
      requires |outcomes| == |config.targetSessions|
      modifies this`disk
      ensures disk == old(disk) - {rec.path}
      ensures |attempts| == |config.targetSessions|
      ensures forall i | 0 <= i < |attempts| ::
        attempts[i] == Attempt(config.targetSessions[i],
                               ForwardChain(rec, format(Template(config), rec.senderId, rec.senderName)),
                               outcomes[i])
    {
      var sessions := config.targetSessions;
      if |sessions| == 0 {
        if rec.path in disk {
          disk := disk - {rec.path};
        }
        return [];
      }
      var prompt := format(Template(config), rec.senderId, rec.senderName);
      attempts := SendToAll(sessions, ForwardChain(rec, prompt), outcomes);
      if rec.path in disk {
        disk := disk - {rec.path};
      }
    }

    /** `on_recall_notice`: a recall of a cached message by a monitored operator
        removes that entry and forwards its record once; anything else is a no-op. */
    method OnRecallNotice(raw: RawEvent, outcomes: seq<SendOutcome>) returns (attempts: seq<Attempt>)
      requires Valid()
      requires |outcomes| == |config.targetSessions|
      modifies this`cache, this`disk
      ensures Valid()
      ensures Store(cache, disk) == Recall(old(Store(cache, disk)), raw, config.monitoredUsers)
      ensures match RecallTarget(old(cache), raw, config.monitoredUsers)
        case None => attempts == []
        case Some(k) =>
          var rec := old(cache)[k];
          && |attempts| == |config.targetSessions|
          && forall i | 0 <= i < |attempts| ::
               attempts[i] == Attempt(config.targetSessions[i],
                                      ForwardChain(rec, format(Template(config), rec.senderId, rec.senderName)),
                                      outcomes[i])
    {
      ghost var s0 := Store(cache, disk);
      attempts := [];
      if !raw.RawDict? {
        return;
      }
      if raw.postType == Some("notice") && (raw.noticeType == Some("group_recall") || raw.noticeType == Some("friend_recall")) {
        var recalledId := RecalledKey(raw);
        var operatorId := OperatorId(raw);
        if recalledId in cache {
          var cachedInfo := cache[recalledId];
          if operatorId in config.monitoredUsers {
            assert RecallTarget(s0.cache, raw, config.monitoredUsers) == Some(recalledId);
            RemoveKeepsConsistent(cacheDir, s0, recalledId);
            cache := cache - {recalledId};
            attempts := ForwardRecalledImage(cachedInfo, outcomes);
            return;
          }
        }
      }
      assert RecallTarget(s0.cache, raw, config.monitoredUsers) == None;
    }

    /** One pass of `_periodic_cleanup`: pops every key present at its start and
        deletes each popped record's file. */
    method CleanupPass()
      modifies this`cache, this`disk
      ensures Valid()
      ensures Store(cache, disk) == Cleanup(old(Store(cache, disk)))
    {
      var allCachedKeys := cache.Keys;
      if allCachedKeys == {} {
        return;
      }
      var pending := allCachedKeys;
      ghost var popped: set<string> := {};
      while pending != {}
        invariant pending !! popped && pending + popped == old(cache).Keys
        invariant cache.Keys == pending
        invariant forall k | k in cache :: cache[k] == old(cache)[k]
        invariant disk == old(disk) - FilesOf(old(cache), popped)
        decreases pending
      {
        var msgId :| msgId in pending;
        pending := pending - {msgId};
        if msgId in cache {
          var cachedInfo := cache[msgId];
          cache := cache - {msgId};
          if cachedInfo.path in disk {
            disk := disk - {cachedInfo.path};
          }
        }
        FilesOfAdd(old(cache), popped, msgId);
        popped := popped + {msgId};
      }
      assert FilesOf(old(cache), popped) == RecordFiles(old(cache));
    }

    /** One turn of the cleanup loop: while `running`, a full pass; after
        `terminate`, nothing. Returns whether the loop goes on. */
    method CleanupTick() returns (more: bool)
      requires Valid()
      modifies this`cache, this`disk
      ensures Valid()
      ensures more == running
      ensures Store(cache, disk) == if running then Cleanup(old(Store(cache, disk))) else old(Store(cache, disk))
    {
      more := running;
      if running {
        CleanupPass();
      }
    }
  }
}
