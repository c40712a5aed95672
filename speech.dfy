/**
 * The backend's audio cache and the `/generate-speech`, `/cache-stats` and
 * `/clear-cache` endpoints. The cache directory `audio_cache` is a map from file
 * name to file; the file for a text is named after the MD5 digest of the text's
 * UTF-8 bytes. Amazon Polly is an oracle with a request log.
 */
module Speech {
  import opened Wrappers
  import opened Encodings

  const CacheDir := "audio_cache"

  /** One file of the cache directory: its bytes and its `st_ctime`. */
  datatype Entry = Entry(data: seq<Byte>, ctime: int)

  type Directory = map<string, Entry>

  /** The names `CACHE_DIR.glob("*.mp3")` matches. */
  predicate IsMp3Name(name: string) {
    |name| >= 4 && name[|name| - 4..] == ".mp3"
  }

  /**
   * `get_audio_cache_path`: the file name `<md5 hex digest>.mp3` of the text
   * exactly as given, with no trimming or other normalisation.
   */
  function CachePath(md5: seq<Byte> -> seq<Byte>, text: string): (name: string)
    ensures |name| == 2 * |md5(Utf8(text))| + 4
  {
    Hex(md5(Utf8(text))) + ".mp3"
  }

  /**
   * A cached file is one `/cache-stats` counts and `/clear-cache` removes:
   * saving it adds exactly that file to the `.mp3` files.
   */
  lemma CachedFileIsCounted(md5: seq<Byte> -> seq<Byte>, text: string, d: Directory, e: Entry)
    ensures IsMp3Name(CachePath(md5, text))
    ensures Mp3Entries(d[CachePath(md5, text) := e]) == Mp3Entries(d)[CachePath(md5, text) := e]
  {
    var h := Hex(md5(Utf8(text)));
    var name := CachePath(md5, text);
    assert name[|name| - 4..] == ".mp3";
  }

  /** Two texts share a cache file exactly when MD5 maps their UTF-8 bytes to the same digest. */
  lemma SamePathIff(md5: seq<Byte> -> seq<Byte>, t1: string, t2: string)
    ensures CachePath(md5, t1) == CachePath(md5, t2) <==> md5(Utf8(t1)) == md5(Utf8(t2))
  {
    var h1, h2 := Hex(md5(Utf8(t1))), Hex(md5(Utf8(t2)));
    if CachePath(md5, t1) == CachePath(md5, t2) {
      assert h1 == CachePath(md5, t1)[..|h1|] == CachePath(md5, t2)[..|h2|] == h2;
      HexInjective(md5(Utf8(t1)), md5(Utf8(t2)));
    }
  }

  /**
   * Only identical texts share an entry, unless MD5 collides on two different
   * byte strings: `"apple"` and `" apple"` have different files.
   */
  lemma SharedPathMeansSameText(md5: seq<Byte> -> seq<Byte>, t1: string, t2: string)
    requires CachePath(md5, t1) == CachePath(md5, t2)
    ensures t1 == t2 || (Utf8(t1) != Utf8(t2) && md5(Utf8(t1)) == md5(Utf8(t2)))
  {
    SamePathIff(md5, t1, t2);
    if Utf8(t1) == Utf8(t2) {
      Utf8Injective(t1, t2);
    }
  }

  /** The `.mp3` files of a directory. */
  function Mp3Entries(d: Directory): (m: Directory)
    ensures m.Keys <= d.Keys
    ensures forall n :: n in m ==> IsMp3Name(n) && m[n] == d[n]
    ensures forall n :: n in d && IsMp3Name(n) ==> n in m
  {
    map n | n in d && IsMp3Name(n) :: d[n]
  }

  /** The files that are not `.mp3` files. */
  function OtherEntries(d: Directory): (m: Directory)
    ensures m.Keys <= d.Keys
    ensures forall n :: n in m ==> !IsMp3Name(n) && m[n] == d[n]
    ensures forall n :: n in d && !IsMp3Name(n) ==> n in m
  {
    map n | n in d && !IsMp3Name(n) :: d[n]
  }

  /** The sum of the sizes of the files of `d`. */
  ghost function TotalSize(d: Directory): nat
    decreases |d|
  {
    if d == map[] then 0
    else
      var k :| k in d;
      assert |d - {k}| < |d| by { assert (d - {k}).Keys == d.Keys - {k}; }
      |d[k].data| + TotalSize(d - {k})
  }

  /** The sum does not depend on the order the files are visited in. */
  lemma {:induction false} TotalSizeRemove(d: Directory, k: string)
    requires k in d
    ensures TotalSize(d) == |d[k].data| + TotalSize(d - {k})
    decreases |d|
  {
    var j :| j in d && TotalSize(d) == |d[j].data| + TotalSize(d - {j});
    if j != k {
      assert |d - {j}| < |d| by { assert (d - {j}).Keys == d.Keys - {j}; }
      assert |d - {k}| < |d| by { assert (d - {k}).Keys == d.Keys - {k}; }
      TotalSizeRemove(d - {j}, k);
      TotalSizeRemove(d - {k}, j);
      assert d - {j} - {k} == d - {k} - {j};
    }
  }

  /** Adding a file adds its size. */
  lemma TotalSizeAdd(d: Directory, k: string, e: Entry)
    requires k !in d
    ensures TotalSize(d[k := e]) == TotalSize(d) + |e.data|
  {
    TotalSizeRemove(d[k := e], k);
    assert d[k := e] - {k} == d;
  }

  /** `t` is the smallest `st_ctime` of a file of the non-empty `d`. */
  ghost predicate IsOldest(d: Directory, t: int) {
    (exists k :: k in d && d[k].ctime == t) && forall k :: k in d ==> t <= d[k].ctime
  }

  /** `t` is the largest `st_ctime` of a file of the non-empty `d`. */
  ghost predicate IsNewest(d: Directory, t: int) {
    (exists k :: k in d && d[k].ctime == t) && forall k :: k in d ==> d[k].ctime <= t
  }

  /** The earlier of a running minimum and a new time. */
  function Earlier(t: Option<int>, c: int): int {
    if t.None? || c < t.value then c else t.value
  }

  /** The later of a running maximum and a new time. */
  function Later(t: Option<int>, c: int): int {
    if t.None? || c > t.value then c else t.value
  }

  /** The size, oldest and newest time of the files in `d`, absent times for no files. */
  ghost predicate Summary(d: Directory, total: nat, oldest: Option<int>, newest: Option<int>) {
    && total == TotalSize(d)
    && (oldest.None? <==> d == map[])
    && (newest.None? <==> d == map[])
    && (oldest.Some? ==> IsOldest(d, oldest.value))
    && (newest.Some? ==> IsNewest(d, newest.value))
  }

  /** Visiting one more file keeps the running sum, minimum and maximum right. */
  lemma SummaryStep(d: Directory, k: string, e: Entry, total: nat, oldest: Option<int>, newest: Option<int>)
    requires k !in d
    requires Summary(d, total, oldest, newest)
    ensures Summary(d[k := e], total + |e.data|, Some(Earlier(oldest, e.ctime)), Some(Later(newest, e.ctime)))
  {
    var d' := d[k := e];
    TotalSizeAdd(d, k, e);
    assert d'[k] == e;
    if oldest.Some? && e.ctime >= oldest.value {
      var j :| j in d && d[j].ctime == oldest.value;
      assert d'[j] == d[j];
    }
    if newest.Some? && e.ctime <= newest.value {
      var j :| j in d && d[j].ctime == newest.value;
      assert d'[j] == d[j];
    }
  }

  /** The answer of `/cache-stats` (`total_size_mb` and ISO formatting are left out). */
  datatype CacheStats = CacheStats(
    cacheDir: string, fileCount: nat, totalSizeBytes: nat, oldest: Option<int>, newest: Option<int>)

  /** What Polly's `synthesize_speech` gives back, or the exception it raises. */
  datatype PollyReply = AudioStream(audio: seq<Byte>) | NoAudioStream | ClientError(message: string)

  /**
   * The two ways `/generate-speech` fails, both caught and answered with
   * `{"message": "语音生成失败: …", "status": "error"}`: Polly's response has no
   * `AudioStream` (the HTTPException raised for it is caught by the same
   * handler), or a boto3 call raised.
   */
  datatype FailureCause = MissingAudioStream | ProviderError(message: string)

  datatype SpeechResponse =
    | Speech(audio: string, format: string, cached: bool)
    | SpeechFailed(cause: FailureCause)

  /**
   * Amazon Polly as seen by the backend: every call is logged, and the reply
   * may depend on the text and on how many calls came before.
   */
  class Polly {
    const answer: (string, nat) -> PollyReply
    var requests: seq<string>

    constructor (answer: (string, nat) -> PollyReply)
      ensures this.answer == answer && requests == []
    {
      this.answer := answer;
      requests := [];
    }

    method SynthesizeSpeech(text: string) returns (r: PollyReply)
      modifies this
      ensures requests == old(requests) + [text]
      ensures r == answer(text, |old(requests)|)
    {
      r := answer(text, |requests|);
      requests := requests + [text];
    }
  }

  /** The files of `d` whose names are in `s`. */
  function Restrict(d: Directory, s: set<string>): (m: Directory)
    ensures m.Keys == d.Keys * s
  {
    map n | n in d && n in s :: d[n]
  }

  /** Taking one more name adds exactly that file. */
  lemma RestrictAdd(d: Directory, s: set<string>, k: string)
    requires k in d && k !in s
    ensures k !in Restrict(d, s)
    ensures Restrict(d, s + {k}) == Restrict(d, s)[k := d[k]]
  {
  }

  /** The sum of sizes and the extreme creation times, in one pass over the files. */
  method Summarise(mp3: Directory) returns (total: nat, oldest: Option<int>, newest: Option<int>)
    ensures Summary(mp3, total, oldest, newest)
  {
    var todo := mp3.Keys;
    ghost var seen: set<string> := {};
    total, oldest, newest := 0, None, None;
    while todo != {}
      invariant seen !! todo && seen + todo == mp3.Keys
      invariant Summary(Restrict(mp3, seen), total, oldest, newest)
      decreases todo
    {
      var k :| k in todo;
      var e := mp3[k];
      RestrictAdd(mp3, seen, k);
      SummaryStep(Restrict(mp3, seen), k, e, total, oldest, newest);
      total := total + |e.data|;
      oldest := Some(Earlier(oldest, e.ctime));
      newest := Some(Later(newest, e.ctime));
      seen := seen + {k};
      todo := todo - {k};
    }
    assert Restrict(mp3, seen) == mp3;
  }

  /** The cache directory, with the digest function that names its files. */
  class AudioCache {
    const md5: seq<Byte> -> seq<Byte>
    var files: Directory

    constructor (md5: seq<Byte> -> seq<Byte>, files: Directory)
      ensures this.md5 == md5 && this.files == files
    {
      this.md5 := md5;
      this.files := files;
    }

    /** `get_cached_audio`: the base64 of the text's file when it exists, even an empty one. */
    method GetCachedAudio(text: string) returns (r: Option<string>)
      ensures r.Some? <==> CachePath(md5, text) in files
      ensures r.Some? ==> r.value == Base64(files[CachePath(md5, text)].data)
    {
      var path := CachePath(md5, text);
      if path in files {
        r := Some(Base64(files[path].data));
      } else {
        r := None;
      }
    }

    /** `save_audio_to_cache`: (over)writes the text's file; `now` is the time of the write. */
    method SaveAudioToCache(text: string, data: seq<Byte>, now: int)
      modifies this
      ensures files == old(files)[CachePath(md5, text) := Entry(data, now)]
    {
      var path := CachePath(md5, text);
      files := files[path := Entry(data, now)];
    }

    /** `/cache-stats`: count, total size, oldest and newest creation time of the `.mp3` files. */
    method Stats() returns (s: CacheStats)
      ensures s.cacheDir == CacheDir
      ensures s.fileCount == |Mp3Entries(files)|
      ensures s.totalSizeBytes == TotalSize(Mp3Entries(files))
      ensures s.oldest.None? <==> Mp3Entries(files) == map[]
      ensures s.newest.None? <==> Mp3Entries(files) == map[]
      ensures s.oldest.Some? ==> IsOldest(Mp3Entries(files), s.oldest.value)
      ensures s.newest.Some? ==> IsNewest(Mp3Entries(files), s.newest.value)
      ensures s.oldest.Some? && s.newest.Some? ==> s.oldest.value <= s.newest.value
    {
      var mp3 := Mp3Entries(files);
      var total, oldest, newest := Summarise(mp3);
      s := CacheStats(CacheDir, |mp3|, total, oldest, newest);
    }

    /** `/clear-cache`: unlinks every `.mp3` file and reports how many there were. */
    method ClearCache() returns (removed: nat)
      modifies this
      ensures removed == |Mp3Entries(old(files))|
      ensures files == OtherEntries(old(files))
      ensures Mp3Entries(files) == map[]
    {
      var names := set n | n in files && IsMp3Name(n);
      assert names == Mp3Entries(files).Keys;
      removed := |names|;
      var todo := names;
      while todo != {}
        invariant todo <= names
        invariant files == map n | n in old(files) && (!IsMp3Name(n) || n in todo) :: old(files)[n]
        decreases |todo|
      {
        var k :| k in todo;
        files := files - {k};
        todo := todo - {k};
      }
    }

    /**
     * `/generate-speech`: a write-through cache in front of Polly. A non-empty
     * cached file is answered with `cached: true` and Polly is not called; an
     * empty file reads back as the falsy `''` and counts as a miss. On a miss the
     * file is written exactly when Polly returned an `AudioStream`, and the answer
     * carries the base64 of exactly those bytes.
     */
    method GenerateSpeech(text: string, polly: Polly, now: int) returns (r: SpeechResponse)
      modifies this, polly
      ensures var path := CachePath(md5, text);
              path in old(files) && old(files)[path].data != [] ==>
                && r == Speech(Base64(old(files)[path].data), "mp3", true)
                && files == old(files) && polly.requests == old(polly.requests)
      ensures var path := CachePath(md5, text);
              var reply := polly.answer(text, |old(polly.requests)|);
              !(path in old(files) && old(files)[path].data != []) ==>
                && polly.requests == old(polly.requests) + [text]
                && (reply.AudioStream? ==>
                      files == old(files)[path := Entry(reply.audio, now)]
                      && r == Speech(Base64(reply.audio), "mp3", false))
                && (reply.NoAudioStream? ==> files == old(files) && r == SpeechFailed(MissingAudioStream))
                && (reply.ClientError? ==> files == old(files) && r == SpeechFailed(ProviderError(reply.message)))
    {
      var cached := GetCachedAudio(text);
      if cached.Some? && cached.value != [] {
        return Speech(cached.value, "mp3", true);
      }
      var reply := polly.SynthesizeSpeech(text);
      match reply
      case AudioStream(audio) =>
        SaveAudioToCache(text, audio, now);
        r := Speech(Base64(audio), "mp3", false);
      case NoAudioStream =>
        r := SpeechFailed(MissingAudioStream);
      case ClientError(message) =>
        r := SpeechFailed(ProviderError(message));
    }
  }

  /**
   * Two requests for the same text: when the first synthesises non-empty audio,
   * the second is served from the cache with the same audio and Polly is called once.
   */
  method RepeatedRequestIsCached(cache: AudioCache, polly: Polly, text: string, t1: int, t2: int)
    returns (first: SpeechResponse, second: SpeechResponse)
    requires var path := CachePath(cache.md5, text);
             !(path in cache.files && cache.files[path].data != [])
    requires var reply := polly.answer(text, |polly.requests|);
             reply.AudioStream? && reply.audio != []
    modifies cache, polly
    ensures first.Speech? && !first.cached
    ensures second == Speech(first.audio, "mp3", true)
    ensures polly.requests == old(polly.requests) + [text]
  {
    first := cache.GenerateSpeech(text, polly, t1);
    second := cache.GenerateSpeech(text, polly, t2);
  }

  /** `/clear-cache` followed by `/cache-stats`: no files, no size, no timestamps. */
  method ClearThenStats(cache: AudioCache) returns (removed: nat, s: CacheStats)
    modifies cache
    ensures removed == |Mp3Entries(old(cache.files))|
    ensures s.fileCount == 0 && s.totalSizeBytes == 0 && s.oldest.None? && s.newest.None?
  {
    removed := cache.ClearCache();
    s := cache.Stats();
  }
}
