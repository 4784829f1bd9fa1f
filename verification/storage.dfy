/**
 * Key layout, cache wiring and session plumbing of the storage layer
 * (base/hourai/db/storage.py).
 *
 * Coders, stores and caches are not run: each is represented by a value that
 * records how it was put together, so that the key layout a cache uses can be
 * read off and compared.
 */
module Storage {
  import opened Wrappers
  import opened Coders
  import Bans

  // ---------------------------------------------------------------------------
  // Prefix bytes
  // ---------------------------------------------------------------------------

  /** The values that reach `_prefixize`: None, an int, or bytes already encoded. */
  datatype PyValue = PyNone | PyInt(i: int) | PyBytes(b: seq<byte>)

  /**
   * `_prefixize`: an int becomes the one-byte string holding it (`bytes([val])`,
   * which raises ValueError outside 0..255); anything else is returned unchanged.
   */
  function Prefixize(v: PyValue): (r: Result<PyValue>)
    ensures v.PyInt? && 0 <= v.i < 256 ==> r == Ok(PyBytes([v.i]))
    ensures v.PyInt? && !(0 <= v.i < 256) ==> r == Raised("ValueError")
    ensures !v.PyInt? ==> r == Ok(v)
  {
    match v
    case PyInt(i) => if 0 <= i < 256 then Ok(PyBytes([i])) else Raised("ValueError")
    case _ => Ok(v)
  }

  /** A prefixized value is left alone by a second `_prefixize`. */
  lemma PrefixizeIdempotent(v: PyValue)
    ensures Prefixize(v).Ok? ==> Prefixize(Prefixize(v).value) == Prefixize(v)
  {
  }

  /** Distinct prefix ints give distinct prefix bytes, and the byte decodes back to the int. */
  lemma PrefixizeInjective(a: int, b: int)
    requires Prefixize(PyInt(a)).Ok? && Prefixize(PyInt(b)).Ok?
    ensures Prefixize(PyInt(a)).value.PyBytes? && Prefixize(PyInt(a)).value.b[0] == a
    ensures Prefixize(PyInt(a)) == Prefixize(PyInt(b)) <==> a == b
  {
    if Prefixize(PyInt(a)) == Prefixize(PyInt(b)) {
      assert [a] == Prefixize(PyInt(a)).value.b;
    }
  }

  /** Top-level prefixes of the store's root key space. */
  datatype StoragePrefix = GuildConfigs | MusicStates | BansPrefix
  {
    function Value(): (v: int)
      ensures 1 <= v <= 3
    {
      match this
      case GuildConfigs => 1
      case MusicStates => 3
      case BansPrefix => 2
    }
  }

  /** The top-level prefixes are distinct bytes: no two kinds of data share a key space. */
  lemma StoragePrefixesDistinct(p: StoragePrefix, q: StoragePrefix)
    ensures Prefixize(PyInt(p.Value())).Ok?
    ensures p.Value() == q.Value() <==> p == q
  {
  }

  // ---------------------------------------------------------------------------
  // Coders, stores and caches
  // ---------------------------------------------------------------------------

  /** How a coder was built. `Raw` is a value passed where a coder is expected. */
  datatype Coder =
    | IntCoder
    | ConstCoder(value: PyValue)
    | Prefixed(prefix: PyValue, inner: Coder)
    | TupleCoder(parts: seq<Coder>)
    | ProtobufCoder(protoType: Option<string>)
    | Compressed(inner: Coder)
    | Raw(value: PyValue)

  /**
   * A value standing where a coder is expected: a function that makes a coder
   * when called (what `protobuf(msg_type)` returns), or a coder itself.
   */
  datatype CoderValue = CoderFactory(makes: Coder) | CoderObject(coder: Coder)

  /** `protobuf(msg_type)`: a function making the message type's coder, not the coder. */
  function Protobuf(protoType: Option<string>): CoderValue
  {
    CoderFactory(ProtobufCoder(protoType))
  }

  /** Calling a coder factory makes its coder. */
  function Make(factory: CoderValue): CoderValue
    requires factory.CoderFactory?
  {
    CoderObject(factory.makes)
  }

  /** `v.compressed()`: only a coder has the method; on a function it raises AttributeError. */
  function CompressedOf(v: CoderValue): (r: Result<Coder>)
    ensures r.Ok? <==> v.CoderObject?
    ensures r.Ok? ==> r.value == Compressed(v.coder)
  {
    match v
    case CoderFactory(_) => Raised("AttributeError")
    case CoderObject(c) => Ok(Compressed(c))
  }

  /**
   * The value coder of a cache for a coder factory, built as every config's
   * is: call the factory, then compress the coder it makes.
   */
  function ValueCoderOf(factory: CoderValue): (r: Result<Coder>)
    requires factory.CoderFactory?
    ensures r == Ok(Compressed(factory.makes))
  {
    CompressedOf(Make(factory))
  }

  /** A plain key-value store, or a store of hashes, with its time to live (None: none set). */
  datatype StoreKind = RedisStore(timeout: Option<int>) | RedisHashStore(hashTimeout: int)

  datatype Cache = Cache(store: StoreKind, keyCoder: Coder, valueCoder: Coder)

  /** `CacheConfig`: every field defaults to None. */
  datatype CacheConfig = CacheConfig(
    attr: Option<string>,
    prefix: Option<StoragePrefix>,
    subprefix: PyValue,
    subcoder: Option<Coder>,
    valueCoder: Option<Coder>,
    timeout: Option<int>,
    protoType: Option<string>)

  function Config(subprefix: int, protoType: string): CacheConfig
  {
    CacheConfig(None, None, PyInt(subprefix), None, None, None, Some(protoType))
  }

  /** The per-guild configuration kinds, each a field of the guild's config hash. */
  datatype GuildPrefix =
    | AutoConfig | ModerationConfig | LoggingConfig | ValidationConfig
    | MusicConfig | AnnounceConfig | RoleConfig
  {
    /** The member's name without its `_CONFIG` suffix. */
    function Stem(): string
    {
      match this
      case AutoConfig => "AUTO"
      case ModerationConfig => "MODERATION"
      case LoggingConfig => "LOGGING"
      case ValidationConfig => "VALIDATION"
      case MusicConfig => "MUSIC"
      case AnnounceConfig => "ANNOUNCE"
      case RoleConfig => "ROLE"
    }

    function Name(): string
    {
      Stem() + "_CONFIG"
    }

    function Value(): CacheConfig
    {
      match this
      case AutoConfig => Config(0, "AutoConfig")
      case ModerationConfig => Config(1, "ModerationConfig")
      case LoggingConfig => Config(2, "LoggingConfig")
      case ValidationConfig => Config(3, "ValidationConfig")
      case MusicConfig => Config(4, "MusicConfig")
      case AnnounceConfig => Config(5, "AnnouncementConfig")
      case RoleConfig => Config(6, "RoleConfig")
    }
  }

  /** `list(GuildPrefix)`: the members in declaration order. */
  const GuildPrefixes: seq<GuildPrefix> :=
    [AutoConfig, ModerationConfig, LoggingConfig, ValidationConfig, MusicConfig, AnnounceConfig, RoleConfig]

  /** Each member of `GuildPrefix` is listed once, and its subprefix is its position. */
  lemma GuildPrefixesEnumerate()
    ensures forall p: GuildPrefix :: p in GuildPrefixes
    ensures forall i :: 0 <= i < |GuildPrefixes| ==> GuildPrefixes[i].Value().subprefix == PyInt(i)
    ensures forall i, j :: 0 <= i < j < |GuildPrefixes| ==> GuildPrefixes[i] != GuildPrefixes[j]
  {
    forall p: GuildPrefix ensures p in GuildPrefixes {
      match p
      case AutoConfig => assert GuildPrefixes[0] == p;
      case ModerationConfig => assert GuildPrefixes[1] == p;
      case LoggingConfig => assert GuildPrefixes[2] == p;
      case ValidationConfig => assert GuildPrefixes[3] == p;
      case MusicConfig => assert GuildPrefixes[4] == p;
      case AnnounceConfig => assert GuildPrefixes[5] == p;
      case RoleConfig => assert GuildPrefixes[6] == p;
    }
  }

  /**
   * Enum attribute lookup on `GuildPrefix`: the member of that name, or
   * AttributeError when there is none.
   */
  function GuildPrefixNamed(name: string): (r: Result<GuildPrefix>)
    ensures r.Ok? ==> r.value.Name() == name
    ensures r.Raised? ==> r.error == "AttributeError" && forall p: GuildPrefix :: p.Name() != name
  {
    GuildPrefixesEnumerate();
    FindPrefix(GuildPrefixes, name)
  }

  function FindPrefix(ps: seq<GuildPrefix>, name: string): (r: Result<GuildPrefix>)
    ensures r.Ok? ==> r.value.Name() == name
    ensures r.Raised? ==> r.error == "AttributeError" && forall p :: p in ps ==> p.Name() != name
  {
    if ps == [] then Raised("AttributeError")
    else if ps[0].Name() == name then Ok(ps[0])
    else FindPrefix(ps[1..], name)
  }

  // ---------------------------------------------------------------------------
  // The cache-config table
  // ---------------------------------------------------------------------------

  function LowerChar(c: char): char
  {
    if 'A' <= c <= 'Z' then (c as int + 32) as char else c
  }

  /** `str.lower` on the ASCII names used here. */
  function Lower(s: string): (r: string)
    ensures |r| == |s|
  {
    seq(|s|, i requires 0 <= i < |s| => LowerChar(s[i]))
  }

  /** The attribute a config kind's cache is stored under. */
  function AttrOf(p: GuildPrefix): string
  {
    Lower(p.Name()) + "s"
  }

  /**
   * `_get_cache_configs`: one config per `GuildPrefix` member, in order, named
   * after the member and placed under the guild-config prefix.
   */
  function GetCacheConfigs(): (cs: seq<CacheConfig>)
    ensures |cs| == |GuildPrefixes|
  {
    seq(|GuildPrefixes|, i requires 0 <= i < |GuildPrefixes| =>
      GuildPrefixes[i].Value().(attr := Some(AttrOf(GuildPrefixes[i])), prefix := Some(GuildConfigs)))
  }

  /**
   * Each config keeps its member's subprefix and message type, is named
   * lower(name) + "s", and lives under the guild-config prefix; the subprefix
   * of the i-th config is i.
   */
  lemma CacheConfigsShape()
    ensures forall i :: 0 <= i < |GetCacheConfigs()| ==>
      var c, p := GetCacheConfigs()[i], GuildPrefixes[i];
      && c.attr == Some(Lower(p.Name()) + "s")
      && c.prefix == Some(GuildConfigs)
      && c.subprefix == PyInt(i) && c.protoType == p.Value().protoType
      && c.subcoder.None? && c.valueCoder.None? && c.timeout.None?
  {
    GuildPrefixesEnumerate();
  }

  /** `str.lower` distributes over concatenation. */
  lemma {:induction false} LowerAppend(a: string, b: string)
    ensures Lower(a + b) == Lower(a) + Lower(b)
  {
  }

  /** Every stem is made of capital letters, so its lower-case form holds no underscore. */
  lemma StemLetters(p: GuildPrefix)
    ensures forall i :: 0 <= i < |p.Stem()| ==> 'A' <= p.Stem()[i] <= 'Z'
    ensures '_' !in Lower(p.Stem())
  {
    var st := p.Stem();
    assert forall i :: 0 <= i < |st| ==> 'A' <= st[i] <= 'Z' by {
      match p
      case AutoConfig =>
      case ModerationConfig =>
      case LoggingConfig =>
      case ValidationConfig =>
      case MusicConfig =>
      case AnnounceConfig =>
      case RoleConfig =>
    }
  }

  /** A stem's length and first letter tell the members apart. */
  lemma StemKey(p: GuildPrefix, q: GuildPrefix)
    requires |p.Stem()| == |q.Stem()| && LowerChar(p.Stem()[0]) == LowerChar(q.Stem()[0])
    ensures p == q
  {
  }

  /** Distinct members are stored under distinct attributes. */
  lemma AttrOfInjective(p: GuildPrefix, q: GuildPrefix)
    ensures AttrOf(p) == AttrOf(q) ==> p == q
  {
    if AttrOf(p) == AttrOf(q) {
      assert |p.Name()| == |q.Name()|;
      assert AttrOf(p)[0] == LowerChar(p.Stem()[0]);
      assert AttrOf(q)[0] == LowerChar(q.Stem()[0]);
      StemKey(p, q);
    }
  }

  /** The configs' attributes are distinct, so no cache overwrites another's. */
  lemma AttrsDistinct(i: nat, j: nat)
    requires i < |GetCacheConfigs()| && j < |GetCacheConfigs()| && i != j
    ensures GetCacheConfigs()[i].attr.Some? && GetCacheConfigs()[j].attr.Some?
    ensures GetCacheConfigs()[i].attr != GetCacheConfigs()[j].attr
  {
    GuildPrefixesEnumerate();
    AttrOfInjective(GuildPrefixes[i], GuildPrefixes[j]);
  }

  /** A config's attribute is its lower-case stem followed by `_configs`. */
  lemma AttrOfStem(p: GuildPrefix)
    ensures AttrOf(p) == Lower(p.Stem()) + "_configs"
  {
    LowerAppend(p.Stem(), "_CONFIG");
    assert Lower("_CONFIG") == "_config";
  }

  // ---------------------------------------------------------------------------
  // Building one cache
  // ---------------------------------------------------------------------------

  /**
   * The cache `__setup_caches` builds for one config: the key coder is the
   * int coder behind the prefix byte; with a subprefix the key is the pair
   * (that key, the subprefix, or the config's subcoder behind the subprefix)
   * over a hash store, and without one a plain store is used. The value coder
   * is the config's own or the message type's, compressed. A missing prefix
   * or an out-of-range prefix int raises as the source does.
   */
  function CacheFor(conf: CacheConfig): (r: Result<Cache>)
  {
    if conf.prefix.None? then Raised("AttributeError")
    else
      match Prefixize(PyInt(conf.prefix.value.Value()))
      case Raised(e) => Raised(e)
      case Ok(prefix) =>
        var keyCoder := Prefixed(prefix, IntCoder);
        var factory := if conf.valueCoder.Some? then CoderFactory(conf.valueCoder.value) else Protobuf(conf.protoType);
        var valueCoder := ValueCoderOf(factory).value;
        var timeout := if conf.timeout.Some? then conf.timeout.value else 0;
        if conf.subprefix.PyNone? then Ok(Cache(RedisStore(Some(timeout)), keyCoder, valueCoder))
        else
          match Prefixize(conf.subprefix)
          case Raised(e) => Raised(e)
          case Ok(subprefix) =>
            var subcoder := if conf.subcoder.Some? then Prefixed(subprefix, conf.subcoder.value) else ConstCoder(subprefix);
            Ok(Cache(RedisHashStore(timeout), TupleCoder([keyCoder, subcoder]), valueCoder))
  }

  /**
   * The store choice: a config with a subprefix gets a hash store keyed by
   * (prefixed id, subprefix); one without gets a plain store keyed by the
   * prefixed id; both take the config's timeout, or 0. The value coder is
   * the one the config's factory, or its message type's, makes, compressed.
   */
  lemma CacheForStoreChoice(conf: CacheConfig)
    requires conf.prefix.Some?
    ensures var r := CacheFor(conf); var p := PyBytes([conf.prefix.value.Value()]);
      var timeout := if conf.timeout.Some? then conf.timeout.value else 0;
      && (conf.subprefix.PyNone? ==> r == Ok(Cache(RedisStore(Some(timeout)), Prefixed(p, IntCoder), r.value.valueCoder)))
      && (conf.subprefix.PyInt? && 0 <= conf.subprefix.i < 256 && conf.subcoder.None? ==>
            r.Ok? && r.value.store == RedisHashStore(timeout)
            && r.value.keyCoder == TupleCoder([Prefixed(p, IntCoder), ConstCoder(PyBytes([conf.subprefix.i]))]))
      && (conf.subprefix.PyInt? && !(0 <= conf.subprefix.i < 256) ==> r == Raised("ValueError"))
      && (r.Ok? ==>
            r.value.valueCoder == Compressed(if conf.valueCoder.Some? then conf.valueCoder.value else ProtobufCoder(conf.protoType)))
  {
  }

  /**
   * Every config of the table builds: each is a hash store under the
   * guild-config prefix with no time to live, keyed by (prefixed id, its own
   * subprefix byte), and valued by its message type, compressed.
   */
  lemma ConfigCachesBuild(i: nat)
    requires i < |GetCacheConfigs()|
    ensures var c := GetCacheConfigs()[i];
      CacheFor(c) == Ok(Cache(RedisHashStore(0),
        TupleCoder([Prefixed(PyBytes([GuildConfigs.Value()]), IntCoder), ConstCoder(PyBytes([i]))]),
        Compressed(ProtobufCoder(GuildPrefixes[i].Value().protoType))))
  {
    CacheConfigsShape();
  }

  /** Two config caches never share a key layout: the subprefix bytes keep the hash fields apart. */
  lemma ConfigKeysDistinct(i: nat, j: nat)
    requires i < |GetCacheConfigs()| && j < |GetCacheConfigs()| && i != j
    ensures CacheFor(GetCacheConfigs()[i]).value.keyCoder != CacheFor(GetCacheConfigs()[j]).value.keyCoder
  {
    ConfigCachesBuild(i);
    ConfigCachesBuild(j);
    var ki := CacheFor(GetCacheConfigs()[i]).value.keyCoder;
    assert ki.parts[1] == ConstCoder(PyBytes([i]));
  }

  /** `attr.replace(pat, '')`: every non-overlapping occurrence, left to right, removed. */
  function RemoveAll(s: string, pat: string): (r: string)
    requires pat != []
    ensures |r| <= |s|
  {
    if |s| < |pat| then s
    else if s[..|pat|] == pat then RemoveAll(s[|pat|..], pat)
    else [s[0]] + RemoveAll(s[1..], pat)
  }

  /** `pat in s`. */
  predicate Contains(s: string, pat: string)
  {
    if |s| < |pat| then false
    else s[..|pat|] == pat || Contains(s[1..], pat)
  }

  /** A name with no underscore followed by `_configs` holds it, and loses exactly that suffix. */
  lemma {:induction false} StripConfigs(x: string)
    requires '_' !in x
    ensures Contains(x + "_configs", "_configs")
    ensures RemoveAll(x + "_configs", "_configs") == x
  {
    var s := x + "_configs";
    if x == [] {
      assert s[..8] == "_configs";
      assert s[8..] == [];
    } else {
      assert s[0] == x[0] && x[0] != '_';
      assert s[..8] != "_configs" by { assert s[..8][0] != '_'; }
      assert s[1..] == x[1..] + "_configs";
      StripConfigs(x[1..]);
      assert [x[0]] + x[1..] == x;
    }
  }

  /** The name a guild-config cache takes in the aggregate: its attribute with `_configs` removed. */
  function AggregateName(attr: string): string
  {
    if Contains(attr, "_configs") then RemoveAll(attr, "_configs") else attr
  }

  // ---------------------------------------------------------------------------
  // Connection back-off
  // ---------------------------------------------------------------------------

  /** What one attempt to open the connection pool does. */
  datatype Attempt = Connected | ReplyError | OtherError(name: string)

  const MAX_WAIT_TIME: int := 60

  function Pow2(n: nat): (r: nat)
    ensures r >= 1
  {
    if n == 0 then 1 else 2 * Pow2(n - 1)
  }

  lemma {:induction false} Pow2Monotone(a: nat, b: nat)
    requires a <= b
    ensures Pow2(a) <= Pow2(b)
    decreases b
  {
    if a < b {
      Pow2Monotone(a, b - 1);
    }
  }

  /** The wait reaches the 60-second limit exactly from the seventh attempt on. */
  lemma WaitBound(k: nat)
    ensures Pow2(k) >= MAX_WAIT_TIME <==> k >= 6
  {
    RetryBudget();
    if k >= 6 {
      Pow2Monotone(6, k);
    } else {
      Pow2Monotone(k, 5);
    }
  }

  /** The waits before the first `n` retries: 1, 2, 4, … */
  function Backoff(n: nat): (ws: seq<int>)
    ensures |ws| == n
  {
    if n == 0 then [] else Backoff(n - 1) + [Pow2(n - 1)]
  }

  function Sum(ws: seq<int>): int
  {
    if ws == [] then 0 else Sum(ws[..|ws| - 1]) + ws[|ws| - 1]
  }

  /** The k-th wait is 2^k. */
  lemma {:induction false} BackoffDoubles(n: nat)
    ensures forall k :: 0 <= k < n ==> Backoff(n)[k] == Pow2(k)
  {
    if n > 0 {
      BackoffDoubles(n - 1);
      assert forall k :: 0 <= k < n - 1 ==> Backoff(n)[k] == Backoff(n - 1)[k];
    }
  }

  /** The waits double from 1, so the time spent waiting before attempt n is 2^n - 1 seconds. */
  lemma {:induction false} BackoffSum(n: nat)
    ensures Sum(Backoff(n)) == Pow2(n) - 1
  {
    if n > 0 {
      BackoffSum(n - 1);
      assert Backoff(n)[..n - 1] == Backoff(n - 1);
    }
  }

  /** The number of retries the wait allows: waits 1..32 are slept, the wait of 64 gives up. */
  lemma RetryBudget()
    ensures Pow2(5) < MAX_WAIT_TIME <= Pow2(6)
    ensures Sum(Backoff(6)) == 63
  {
    BackoffSum(6);
  }

  /**
   * `_connect_to_redis`: try to connect; on a reply error, give up when the
   * wait has reached 60 seconds, otherwise sleep the wait and double it. Any
   * other error propagates at once. `attempt(k)` is what the k-th try does.
   * Returns the attempt that connected, and the waits slept.
   */
  method ConnectToRedis(attempt: nat -> Attempt) returns (r: Result<nat>, sleeps: seq<int>)
    ensures |sleeps| <= 6 && sleeps == Backoff(|sleeps|)
    ensures forall k :: 0 <= k < |sleeps| ==> attempt(k) == ReplyError && sleeps[k] < MAX_WAIT_TIME
    ensures r.Ok? ==> r.value == |sleeps| && attempt(r.value) == Connected
    ensures r.Raised? && attempt(|sleeps|) == ReplyError ==> |sleeps| == 6 && r.error == "ReplyError"
    ensures r.Raised? ==> attempt(|sleeps|) == ReplyError || attempt(|sleeps|) == OtherError(r.error)
  {
    var waitTime := 1;
    sleeps := [];
    var k := 0;
    while true
      invariant k <= 6 && waitTime == Pow2(k) && sleeps == Backoff(k)
      invariant forall j :: 0 <= j < k ==> attempt(j) == ReplyError
      decreases 6 - k
    {
      BackoffDoubles(k);
      WaitBound(k);
      forall j | 0 <= j < k ensures sleeps[j] < MAX_WAIT_TIME {
        WaitBound(j);
      }
      match attempt(k)
      case Connected =>
        return Ok(k), sleeps;
      case OtherError(name) =>
        return Raised(name), sleeps;
      case ReplyError =>
        if waitTime >= MAX_WAIT_TIME {
          return Raised("ReplyError"), sleeps;
        }
        sleeps := sleeps + [waitTime];
        waitTime := waitTime * 2;
        k := k + 1;
    }
  }

  // ---------------------------------------------------------------------------
  // Cache setup
  // ---------------------------------------------------------------------------

  /**
   * The music-states cache's key prefix as written: an attribute of
   * `GuildPrefix`, which has no member of that name.
   */
  function MusicStatesPrefixAsWritten(): Result<PyValue>
  {
    match GuildPrefixNamed("MUSIC_STATES")
    case Raised(e) => Raised(e)
    case Ok(p) => Prefixize(p.Value().subprefix)
  }

  /** No `GuildPrefix` member is named MUSIC_STATES. */
  lemma NotMusicStates(p: GuildPrefix)
    ensures p.Name() != "MUSIC_STATES"
  {
    assert p.Name()[|p.Stem()| + 1] == 'C';
  }

  /** As written, building the music-states cache raises AttributeError, and the setup aborts. */
  lemma MusicStatesAsWrittenRaises()
    ensures MusicStatesPrefixAsWritten() == Raised("AttributeError")
  {
    forall p: GuildPrefix ensures p.Name() != "MUSIC_STATES" {
      NotMusicStates(p);
    }
  }

  /**
   * The music-states key prefix as intended: the top-level music-states
   * prefix byte, which no other kind of data uses.
   */
  function MusicStatesPrefix(): (r: PyValue)
    ensures r == PyBytes([MusicStates.Value()])
    ensures forall p: StoragePrefix :: p != MusicStates ==> r != PyBytes([p.Value()])
  {
    Prefixize(PyInt(MusicStates.Value())).value
  }

  /**
   * The music-states value coder as written: `.compressed()` is looked up on
   * what `protobuf` returns, which is a function, not a coder.
   */
  function MusicValueCoderAsWritten(): Result<Coder>
  {
    CompressedOf(Protobuf(Some("MusicBotState")))
  }

  /** As written, the music-states value coder raises AttributeError, and the setup aborts. */
  lemma MusicValueCoderAsWrittenRaises()
    ensures MusicValueCoderAsWritten() == Raised("AttributeError")
  {
  }

  /**
   * The music-states value coder as intended: the factory is called before
   * compressing, as for every config's cache, giving the compressed coder of
   * the music-bot-state message.
   */
  function MusicValueCoder(): Result<Coder>
  {
    ValueCoderOf(Protobuf(Some("MusicBotState")))
  }

  /** The intended music-states value coder builds: the compressed music-bot-state coder. */
  lemma MusicValueCoderBuilds()
    ensures MusicValueCoder() == Ok(Compressed(ProtobufCoder(Some("MusicBotState"))))
  {
  }

  /** The intended music-states value coder is the one the config loop gives a config of the same message type. */
  lemma MusicValueCoderLikeConfigs(conf: CacheConfig)
    ensures conf.valueCoder.None? && conf.protoType == Some("MusicBotState") && CacheFor(conf).Ok? ==>
      CacheFor(conf).value.valueCoder == MusicValueCoder().value
  {
    if conf.valueCoder.None? && conf.protoType == Some("MusicBotState") && CacheFor(conf).Ok? {
      CacheForStoreChoice(conf);
    }
  }

  /** The ban storage's timeout when none is given. */
  const BAN_TIMEOUT: nat := 300

  /** The aggregate's entries for the configs under the guild-config prefix, named without `_configs`. */
  function Aggregate(confs: seq<CacheConfig>, caches: map<string, Option<Cache>>): seq<(string, Option<Cache>)>
    requires forall i :: 0 <= i < |confs| ==> confs[i].attr.Some? && confs[i].attr.value in caches
  {
    if confs == [] then []
    else
      var c := confs[|confs| - 1];
      Aggregate(confs[..|confs| - 1], caches) +
        (if c.prefix != Some(GuildConfigs) then [] else [(AggregateName(c.attr.value), caches[c.attr.value])])
  }

  /** Every config names its attribute and builds without raising. */
  ghost predicate AllBuild(confs: seq<CacheConfig>)
  {
    forall i :: 0 <= i < |confs| ==> confs[i].attr.Some? && CacheFor(confs[i]).Ok?
  }

  /** `setattr(self, conf.attr, cache)` for each config in turn. */
  function SetAttrs(attrs: map<string, Option<Cache>>, confs: seq<CacheConfig>): (r: map<string, Option<Cache>>)
    requires AllBuild(confs)
    ensures forall i :: 0 <= i < |confs| ==> confs[i].attr.value in r
    ensures attrs.Keys <= r.Keys
  {
    if confs == [] then attrs
    else
      var c := confs[|confs| - 1];
      SetAttrs(attrs, confs[..|confs| - 1])[c.attr.value := Some(CacheFor(c).value)]
  }

  /**
   * After the setup each config's attribute holds the cache built for it:
   * the attributes are distinct, so no later config overwrites an earlier
   * one's cache. Attributes of no config keep what they held.
   */
  lemma {:induction false} SetAttrsLookup(attrs: map<string, Option<Cache>>, confs: seq<CacheConfig>)
    requires AllBuild(confs)
    requires forall i, j :: 0 <= i < j < |confs| ==> confs[i].attr != confs[j].attr
    ensures forall i :: 0 <= i < |confs| ==> SetAttrs(attrs, confs)[confs[i].attr.value] == Some(CacheFor(confs[i]).value)
    ensures forall a :: a in attrs && (forall i :: 0 <= i < |confs| ==> confs[i].attr != Some(a)) ==> SetAttrs(attrs, confs)[a] == attrs[a]
  {
    if confs != [] {
      SetAttrsLookup(attrs, confs[..|confs| - 1]);
    }
  }

  /** Every config of the table builds. */
  lemma ConfigsBuild()
    ensures AllBuild(GetCacheConfigs())
  {
    forall i | 0 <= i < |GetCacheConfigs()| ensures GetCacheConfigs()[i].attr.Some? && CacheFor(GetCacheConfigs()[i]).Ok? {
      CacheConfigsShape();
      ConfigCachesBuild(i);
    }
  }

  /**
   * After the setup, each config's attribute holds the cache built for it.
   */
  lemma SetupLookup(attrs: map<string, Option<Cache>>, i: nat)
    requires i < |GetCacheConfigs()|
    ensures AllBuild(GetCacheConfigs())
    ensures var c := GetCacheConfigs()[i];
      SetAttrs(attrs, GetCacheConfigs())[c.attr.value] == Some(CacheFor(c).value)
  {
    ConfigsBuild();
    forall i, j | 0 <= i < j < |GetCacheConfigs()| ensures GetCacheConfigs()[i].attr != GetCacheConfigs()[j].attr {
      AttrsDistinct(i, j);
    }
    SetAttrsLookup(attrs, GetCacheConfigs());
  }

  /**
   * The storage object's cache attributes. `attrs` holds what `setattr` put
   * under each config's attribute name (None until the caches are set up).
   */
  class Storage {
    var attrs: map<string, Option<Cache>>
    var bans: Bans.BanStorage?
    var musicStates: Option<Cache>
    var guildConfigs: seq<(string, Option<Cache>)>

    /** `__init__`: every config's attribute starts out as None. */
    constructor ()
      ensures forall i :: 0 <= i < |GetCacheConfigs()| ==>
        GetCacheConfigs()[i].attr.Some? && GetCacheConfigs()[i].attr.value in attrs
      ensures forall a :: a in attrs ==> attrs[a] == None
      ensures bans == null && musicStates == None && guildConfigs == []
    {
      attrs := map[];
      bans := null;
      musicStates := None;
      guildConfigs := [];
      new;
      CacheConfigsShape();
      var confs := GetCacheConfigs();
      for i := 0 to |confs|
        invariant forall j :: 0 <= j < i ==> confs[j].attr.value in attrs
        invariant forall a :: a in attrs ==> attrs[a] == None
        invariant bans == null && musicStates == None && guildConfigs == []
      {
        attrs := attrs[confs[i].attr.value := None];
      }
    }

    /**
     * `__setup_caches` with the music-states prefix taken from the top-level
     * prefixes: the ban storage under the ban prefix; the music-states cache;
     * each config's cache under its attribute; then the aggregate over the
     * guild-config caches.
     */
    method SetupCaches(redis: Bans.Store)
      requires Bans.ShapedUnder(BansPrefix.Value(), redis)
      modifies this
      ensures fresh(bans) && bans.prefix == BansPrefix.Value() && bans.timeout == BAN_TIMEOUT
      ensures bans.store == redis && bans.Valid()
      ensures musicStates == Some(Cache(RedisStore(None), Raw(MusicStatesPrefix()),
                                        Compressed(ProtobufCoder(Some("MusicBotState")))))
      ensures AllBuild(GetCacheConfigs()) && attrs == SetAttrs(old(attrs), GetCacheConfigs())
      ensures guildConfigs == Aggregate(GetCacheConfigs(), attrs)
    {
      bans := new Bans.BanStorage(BansPrefix.Value(), BAN_TIMEOUT, redis);
      MusicValueCoderBuilds();
      musicStates := Some(Cache(RedisStore(None), Raw(MusicStatesPrefix()), MusicValueCoder().value));
      var confs := GetCacheConfigs();
      ConfigsBuild();
      SetConfigCaches(confs);
      guildConfigs := AggregateMapping(confs);
    }

    /** The loop that puts each config's cache under its attribute. */
    method SetConfigCaches(confs: seq<CacheConfig>)
      requires AllBuild(confs)
      modifies this`attrs
      ensures attrs == SetAttrs(old(attrs), confs)
    {
      for i := 0 to |confs|
        invariant attrs == SetAttrs(old(attrs), confs[..i])
      {
        assert confs[..i + 1][..i] == confs[..i];
        var cache := CacheFor(confs[i]).value;
        attrs := attrs[confs[i].attr.value := Some(cache)];
      }
      assert confs[..|confs|] == confs;
    }

    /**
     * The loop that lists the caches under the guild-config prefix for the
     * aggregate, each under its attribute with `_configs` removed.
     */
    method AggregateMapping(confs: seq<CacheConfig>) returns (mapping: seq<(string, Option<Cache>)>)
      requires forall i :: 0 <= i < |confs| ==> confs[i].attr.Some? && confs[i].attr.value in attrs
      ensures mapping == Aggregate(confs, attrs)
    {
      mapping := [];
      for i := 0 to |confs|
        invariant mapping == Aggregate(confs[..i], attrs)
      {
        assert confs[..i + 1][..i] == confs[..i];
        var conf := confs[i];
        if conf.prefix != Some(GuildConfigs) {
          continue;
        }
        var attr := conf.attr.value;
        if Contains(attr, "_configs") {
          attr := RemoveAll(attr, "_configs");
        }
        mapping := mapping + [(attr, attrs[conf.attr.value])];
      }
      assert confs[..|confs|] == confs;
    }
  }

  /**
   * The aggregate lists every config cache in table order, each under its
   * member's lower-case name without `_configs`.
   */
  lemma AggregateNames(caches: map<string, Option<Cache>>)
    requires forall i :: 0 <= i < |GetCacheConfigs()| ==> GetCacheConfigs()[i].attr.Some? && GetCacheConfigs()[i].attr.value in caches
    ensures |Aggregate(GetCacheConfigs(), caches)| == |GetCacheConfigs()|
    ensures forall i :: 0 <= i < |GetCacheConfigs()| ==>
      Aggregate(GetCacheConfigs(), caches)[i] == (Lower(GuildPrefixes[i].Stem()), caches[GetCacheConfigs()[i].attr.value])
  {
    var confs := GetCacheConfigs();
    var names := seq(|GuildPrefixes|, i requires 0 <= i < |GuildPrefixes| => Lower(GuildPrefixes[i].Stem()));
    CacheConfigsShape();
    forall i | 0 <= i < |confs|
      ensures AggregateName(confs[i].attr.value) == names[i]
    {
      AggregateNameOf(GuildPrefixes[i]);
    }
    AggregatePrefix(confs, caches, names, |confs|);
    assert confs[..|confs|] == confs;
  }

  /**
   * The first `n` entries of the aggregate over configurations that all
   * belong to the guild-configs prefix pair each configuration's aggregate
   * name with its cache.
   */
  lemma {:induction false} AggregatePrefix(confs: seq<CacheConfig>, caches: map<string, Option<Cache>>, names: seq<string>, n: nat)
    requires n <= |confs| <= |names|
    requires forall i :: 0 <= i < |confs| ==>
      && confs[i].prefix == Some(GuildConfigs) && confs[i].attr.Some? && confs[i].attr.value in caches
      && AggregateName(confs[i].attr.value) == names[i]
    ensures |Aggregate(confs[..n], caches)| == n
    ensures forall i :: 0 <= i < n ==>
      Aggregate(confs[..n], caches)[i] == (names[i], caches[confs[i].attr.value])
  {
    if n > 0 {
      AggregatePrefix(confs, caches, names, n - 1);
      assert confs[..n][..n - 1] == confs[..n - 1];
    }
  }

  /** `lower(name) + "s"` with `_configs` removed is the lower-case stem. */
  lemma AggregateNameOf(p: GuildPrefix)
    ensures AggregateName(AttrOf(p)) == Lower(p.Stem())
  {
    AttrOfStem(p);
    StemLetters(p);
    StripConfigs(Lower(p.Stem()));
  }

  // ---------------------------------------------------------------------------
  // The storage session
  // ---------------------------------------------------------------------------

  datatype DbCall = Commit | Rollback | Close

  /**
   * The database session a storage session wraps: the calls made on it, in
   * order, and its attributes.
   */
  class DbSession {
    var calls: seq<DbCall>

    constructor ()
      ensures calls == []
    {
      calls := [];
    }
  }

  /**
   * The calls `__exit__` makes: commit when the block raised nothing, roll
   * back otherwise, then close; a commit or rollback that raises (`fails`)
   * skips the close and propagates.
   */
  function ExitCalls(blockRaised: bool, fails: Option<string>): seq<DbCall>
  {
    (if blockRaised then [Rollback] else [Commit]) + (if fails.Some? then [] else [Close])
  }

  /**
   * Exactly one of commit and rollback is made, commit exactly when the block
   * raised nothing, and the session is closed last unless that call raised.
   */
  lemma ExitCallsShape(blockRaised: bool, fails: Option<string>)
    ensures var cs := ExitCalls(blockRaised, fails);
      && (Commit in cs <==> !blockRaised)
      && (Rollback in cs <==> blockRaised)
      && (Close in cs <==> fails.None?)
      && |cs| >= 1 && (fails.None? ==> cs[|cs| - 1] == Close && |cs| == 2)
  {
  }

  class StorageSession {
    const dbSession: DbSession

    constructor (dbSession: DbSession)
      ensures this.dbSession == dbSession
    {
      this.dbSession := dbSession;
    }

    /**
     * `__exit__`: `blockRaised` says whether the `with` block raised, and
     * `fails` whether the commit or rollback then raised (and with what).
     * Returns what propagates out of the exit itself.
     */
    method Exit(blockRaised: bool, fails: Option<string>) returns (r: Result<()>)
      modifies dbSession
      ensures dbSession.calls == old(dbSession.calls) + ExitCalls(blockRaised, fails)
      ensures r.Raised? <==> fails.Some?
      ensures r.Raised? ==> r.error == fails.value
    {
      if !blockRaised {
        dbSession.calls := dbSession.calls + [Commit];
      } else {
        dbSession.calls := dbSession.calls + [Rollback];
      }
      if fails.Some? {
        return Raised(fails.value);
      }
      dbSession.calls := dbSession.calls + [Close];
      return Ok(());
    }
  }

  /**
   * Attribute resolution over the session's subitems: the first subitem that
   * has the attribute answers; AttributeError when none has it.
   */
  function Resolve<V>(subitems: seq<map<string, V>>, attr: string): (r: Result<V>)
  {
    if subitems == [] then Raised("AttributeError")
    else if attr in subitems[0] then Ok(subitems[0][attr])
    else Resolve(subitems[1..], attr)
  }

  /**
   * Resolution finds the attribute exactly when some subitem has it, and then
   * answers with the first such subitem's value.
   */
  lemma {:induction false} ResolveFirstHit<V>(subitems: seq<map<string, V>>, attr: string)
    ensures Resolve(subitems, attr).Raised? <==> forall i :: 0 <= i < |subitems| ==> attr !in subitems[i]
    ensures Resolve(subitems, attr).Raised? ==> Resolve(subitems, attr).error == "AttributeError"
    ensures Resolve(subitems, attr).Ok? ==>
      exists i :: (0 <= i < |subitems| && attr in subitems[i]
        && Resolve(subitems, attr).value == subitems[i][attr]
        && forall j :: 0 <= j < i ==> attr !in subitems[j])
  {
    if subitems != [] && attr !in subitems[0] {
      ResolveFirstHit(subitems[1..], attr);
      if Resolve(subitems, attr).Ok? {
        var i :| 0 <= i < |subitems[1..]| && attr in subitems[1..][i]
          && Resolve(subitems[1..], attr).value == subitems[1..][i][attr]
          && forall j :: 0 <= j < i ==> attr !in subitems[1..][j];
        assert subitems[i + 1] == subitems[1..][i];
        forall j | 0 <= j < i + 1 ensures attr !in subitems[j] {
          if j > 0 {
            assert subitems[j] == subitems[1..][j - 1];
          }
        }
      } else {
        forall i | 0 <= i < |subitems| ensures attr !in subitems[i] {
          if i > 0 {
            assert subitems[i] == subitems[1..][i - 1];
          }
        }
      }
    }
  }

  /**
   * `__getattr__`: tries the database session, then the storage object, and
   * answers with the first that has the attribute; raises AttributeError when
   * neither has it.
   */
  method GetAttr<V>(dbSessionAttrs: map<string, V>, storageAttrs: map<string, V>, attr: string) returns (r: Result<V>)
    ensures r == Resolve([dbSessionAttrs, storageAttrs], attr)
    ensures attr in dbSessionAttrs ==> r == Ok(dbSessionAttrs[attr])
    ensures attr !in dbSessionAttrs && attr in storageAttrs ==> r == Ok(storageAttrs[attr])
    ensures attr !in dbSessionAttrs && attr !in storageAttrs ==> r == Raised("AttributeError")
  {
    var subitems := [dbSessionAttrs, storageAttrs];
    for i := 0 to |subitems|
      invariant Resolve(subitems, attr) == Resolve(subitems[i..], attr)
    {
      if attr in subitems[i] {
        return Ok(subitems[i][attr]);
      }
      assert subitems[i..][1..] == subitems[i + 1..];
    }
    return Raised("AttributeError");
  }
}
