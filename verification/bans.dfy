/**
 * The ban cache (base/hourai/db/bans.py): every ban the bot sees, kept in the
 * keyed store under two indices. A guild's hash maps each banned user's
 * encoded id to the ban record; a user's set holds the keys of the guilds that
 * banned that user. Each transaction of the source is one atomic method here.
 *
 * The value codec (protobuf, then compression) is not part of this model: a
 * hash value is the record itself, so decoding a stored value gives back the
 * record that was encoded.
 */
module Bans {
  import opened Wrappers
  import opened Coders
  import opened Seqs

  const GUILD_BAN_PREFIX: byte := 0
  const USER_BAN_PREFIX: byte := 1
  const MAX_CHUNK_SIZE: nat := 1024

  /** Keys and hash fields of the store are binary strings. */
  type Key = seq<byte>

  datatype User = User(id: Id, avatar: Option<string>)

  /** A ban as the chat platform reports it. */
  datatype Ban = Ban(user: User, reason: Option<string>)

  /** A guild as the cache sees it: its id, its member count and the `bot` flag of every cached member. */
  datatype Guild = Guild(id: Id, memberCount: int, cachedBots: seq<bool>)

  /** The per-guild admin configuration of the relational store. */
  datatype AdminConfig = AdminConfig(sourceBans: bool)

  /** The stored ban record (the BanInfo message). An optional field is None when it was never set. */
  datatype BanInfo = BanInfo(
    guildId: Id,
    guildSize: int,
    guildBlocked: bool,
    userId: Id,
    avatar: Option<string>,
    reason: Option<string>)

  // ---------------------------------------------------------------------------
  // Keys
  // ---------------------------------------------------------------------------

  function GuildKey(prefix: byte, guildId: Id): (k: Key)
    ensures |k| == 2 + ID_WIDTH && k[..2] == [prefix, GUILD_BAN_PREFIX] && k[2..] == EncodeId(guildId)
  {
    [prefix, GUILD_BAN_PREFIX] + EncodeId(guildId)
  }

  function UserKey(prefix: byte, userId: Id): (k: Key)
    ensures |k| == 2 + ID_WIDTH && k[..2] == [prefix, USER_BAN_PREFIX] && k[2..] == EncodeId(userId)
  {
    [prefix, USER_BAN_PREFIX] + EncodeId(userId)
  }

  /**
   * The key layouts of the key coders: the cache prefix, the key-space byte,
   * then the id in eight big-endian bytes, which decode back to the id.
   */
  lemma KeysParse(prefix: byte, id: Id)
    ensures var gk := GuildKey(prefix, id);
      gk[0] == prefix && gk[1] == GUILD_BAN_PREFIX && DecodeId(gk[2..]) == id
    ensures var uk := UserKey(prefix, id);
      uk[0] == prefix && uk[1] == USER_BAN_PREFIX && DecodeId(uk[2..]) == id
  {
    IdRoundTrip(id);
  }

  /** A guild key never equals a user key, whatever the prefixes and ids. */
  lemma KeySpacesDisjoint(p: byte, q: byte, guildId: Id, userId: Id)
    ensures GuildKey(p, guildId) != UserKey(q, userId)
  {
    assert GuildKey(p, guildId)[1] != UserKey(q, userId)[1];
  }

  /** Guild keys of one cache name guilds one to one, and so do user keys. */
  lemma KeysInjective(prefix: byte, a: Id, b: Id)
    ensures GuildKey(prefix, a) == GuildKey(prefix, b) <==> a == b
    ensures UserKey(prefix, a) == UserKey(prefix, b) <==> a == b
  {
    if GuildKey(prefix, a) == GuildKey(prefix, b) || UserKey(prefix, a) == UserKey(prefix, b) {
      assert EncodeId(a) == EncodeId(b);
      EncodeIdInjective(a, b);
    }
  }

  // ---------------------------------------------------------------------------
  // Encoding a ban
  // ---------------------------------------------------------------------------

  function CountBots(bots: seq<bool>): (n: nat)
    ensures n <= |bots|
  {
    if bots == [] then 0 else CountBots(bots[..|bots| - 1]) + (if bots[|bots| - 1] then 1 else 0)
  }

  /**
   * `_get_guild_size`: the member count less the bots among the cached
   * members; it is never above the member count and falls short of it by at
   * most the number of cached members, the more cached bots the more.
   */
  function GuildSize(g: Guild): (size: int)
    ensures g.memberCount - |g.cachedBots| <= size <= g.memberCount
    ensures size == g.memberCount <==> forall i :: 0 <= i < |g.cachedBots| ==> !g.cachedBots[i]
  {
    NoBotsIff(g.cachedBots);
    g.memberCount - CountBots(g.cachedBots)
  }

  lemma {:induction false} NoBotsIff(bots: seq<bool>)
    ensures CountBots(bots) == 0 <==> forall i :: 0 <= i < |bots| ==> !bots[i]
  {
    if bots != [] {
      NoBotsIff(bots[..|bots| - 1]);
      if CountBots(bots) == 0 {
        forall i | 0 <= i < |bots| ensures !bots[i] {
          if i < |bots| - 1 { assert bots[..|bots| - 1][i] == bots[i]; }
        }
      }
    }
  }

  /** `is_guild_blocked`: an admin configuration exists and opts the guild out of sourcing bans. */
  function IsGuildBlocked(adminConfigs: map<Id, AdminConfig>, guildId: Id): (blocked: bool)
    ensures blocked ==> guildId in adminConfigs
    ensures guildId in adminConfigs ==> (blocked <==> !adminConfigs[guildId].sourceBans)
  {
    guildId in adminConfigs && !adminConfigs[guildId].sourceBans
  }

  /**
   * `__encode_ban`: the hash field (the banned user's encoded id) and the
   * record. The field decodes back to the user, the optional avatar and
   * reason are set exactly when present, and the guild size is the
   * approximate count of non-bot members.
   */
  function EncodeBan(g: Guild, ban: Ban, blocked: bool): (entry: (Key, BanInfo))
    ensures |entry.0| == ID_WIDTH && DecodeId(entry.0) == ban.user.id
    ensures entry.1.guildId == g.id && entry.1.userId == ban.user.id
    ensures entry.1.guildSize == g.memberCount - CountBots(g.cachedBots)
    ensures entry.1.guildBlocked == blocked
    ensures entry.1.avatar.Some? <==> ban.user.avatar.Some?
    ensures entry.1.avatar.Some? ==> entry.1.avatar.value == ban.user.avatar.value
    ensures entry.1.reason.Some? <==> ban.reason.Some?
    ensures entry.1.reason.Some? ==> entry.1.reason.value == ban.reason.value
  {
    IdRoundTrip(ban.user.id);
    var info := BanInfo(g.id, GuildSize(g), blocked, ban.user.id, None, None);
    var info := if ban.user.avatar.Some? then info.(avatar := ban.user.avatar) else info;
    var info := if ban.reason.Some? then info.(reason := ban.reason) else info;
    (EncodeId(ban.user.id), info)
  }

  /** The encoded bans of a guild, in the order the platform lists them. */
  function Encoded(g: Guild, bans: seq<Ban>, blocked: bool): (es: seq<(Key, BanInfo)>)
    ensures |es| == |bans|
    ensures forall e :: e in es ==> |e.0| == ID_WIDTH
  {
    seq(|bans|, i requires 0 <= i < |bans| => EncodeBan(g, bans[i], blocked))
  }

  /** `dict(entries)`: the later of two entries with one field wins. */
  function EntriesMap(es: seq<(Key, BanInfo)>): map<Key, BanInfo>
  {
    if es == [] then map[] else EntriesMap(es[..|es| - 1])[es[|es| - 1].0 := es[|es| - 1].1]
  }

  lemma {:induction false} EntriesMapAppend(a: seq<(Key, BanInfo)>, b: seq<(Key, BanInfo)>)
    ensures EntriesMap(a + b) == EntriesMap(a) + EntriesMap(b)
  {
    if b == [] {
      assert a + b == a;
    } else {
      Snoc(a, b);
      EntriesMapAppend(a, b[..|b| - 1]);
    }
  }


  /** The fields of `dict(entries)` are exactly the entries' fields. */
  lemma {:induction false} EntriesMapKeys(es: seq<(Key, BanInfo)>)
    ensures EntriesMap(es).Keys == set e | e in es :: e.0
  {
    if es != [] {
      var init, last := es[..|es| - 1], es[|es| - 1];
      EntriesMapKeys(init);
      assert es == init + [last];
      assert (set e | e in es :: e.0) == (set e | e in init :: e.0) + {last.0};
    }
  }

  lemma EntriesMapNonEmpty(es: seq<(Key, BanInfo)>)
    requires es != []
    ensures EntriesMap(es) != map[]
  {
    assert es[|es| - 1].0 in EntriesMap(es);
  }

  lemma MapUnionAssoc<K, V>(a: map<K, V>, b: map<K, V>, c: map<K, V>)
    ensures (a + b) + c == a + (b + c)
  {
  }

  /** Every field of `dict(entries)` holds the value of an entry with that field. */
  lemma {:induction false} EntriesMapValues(es: seq<(Key, BanInfo)>)
    ensures forall f :: f in EntriesMap(es) ==> (f, EntriesMap(es)[f]) in es
  {
    if es != [] {
      var init, last := es[..|es| - 1], es[|es| - 1];
      EntriesMapValues(init);
      assert es == init + [last];
    }
  }

  /** With distinct fields, `dict(entries)` keeps every entry. */
  lemma {:induction false} EntriesMapDistinct(es: seq<(Key, BanInfo)>)
    requires forall i, j :: 0 <= i < j < |es| ==> es[i].0 != es[j].0
    ensures |EntriesMap(es)| == |es|
    ensures forall e :: e in es ==> e.0 in EntriesMap(es) && EntriesMap(es)[e.0] == e.1
  {
    if es != [] {
      var init, last := es[..|es| - 1], es[|es| - 1];
      assert es == init + [last];
      forall i, j | 0 <= i < j < |init| ensures init[i].0 != init[j].0 {
        assert init[i] == es[i] && init[j] == es[j];
      }
      EntriesMapDistinct(init);
      EntriesMapKeys(init);
    }
  }

  /** The fields of a guild's encoded bans are the banned users' encoded ids. */
  lemma BanFields(g: Guild, bans: seq<Ban>, blocked: bool)
    ensures (set e | e in Encoded(g, bans, blocked) :: e.0) == set b | b in bans :: EncodeId(b.user.id)
  {
    var es := Encoded(g, bans, blocked);
    forall b | b in bans ensures EncodeId(b.user.id) in set e | e in es :: e.0 {
      var i :| 0 <= i < |bans| && bans[i] == b;
      assert es[i] in es;
    }
  }

  /**
   * The hash entries `save_bans` writes for one guild: one field per banned
   * user, each holding the encoding of one of that guild's bans; with distinct
   * users, one entry per ban, each the encoding of that user's ban.
   */
  lemma BanEntries(g: Guild, bans: seq<Ban>, blocked: bool)
    ensures EntriesMap(Encoded(g, bans, blocked)).Keys == set b | b in bans :: EncodeId(b.user.id)
    ensures forall f :: f in EntriesMap(Encoded(g, bans, blocked)) ==>
      exists b :: b in bans && EncodeBan(g, b, blocked) == (f, EntriesMap(Encoded(g, bans, blocked))[f])
    ensures (forall i, j :: 0 <= i < j < |bans| ==> bans[i].user.id != bans[j].user.id) ==>
      |EntriesMap(Encoded(g, bans, blocked))| == |bans|
      && forall b :: b in bans ==> EntriesMap(Encoded(g, bans, blocked))[EncodeId(b.user.id)] == EncodeBan(g, b, blocked).1
  {
    var es := Encoded(g, bans, blocked);
    EntriesMapKeys(es);
    BanFields(g, bans, blocked);
    EntriesMapValues(es);
    forall f | f in EntriesMap(es)
      ensures exists b :: b in bans && EncodeBan(g, b, blocked) == (f, EntriesMap(es)[f])
    {
      var i :| 0 <= i < |es| && es[i] == (f, EntriesMap(es)[f]);
      assert bans[i] in bans;
    }
    if forall i, j :: 0 <= i < j < |bans| ==> bans[i].user.id != bans[j].user.id {
      forall i, j | 0 <= i < j < |es| ensures es[i].0 != es[j].0 {
        EncodeIdInjective(bans[i].user.id, bans[j].user.id);
      }
      EntriesMapDistinct(es);
      forall b | b in bans ensures EntriesMap(es)[EncodeId(b.user.id)] == EncodeBan(g, b, blocked).1 {
        var i :| 0 <= i < |bans| && bans[i] == b;
        assert es[i] in es;
      }
    }
  }

  // ---------------------------------------------------------------------------
  // Batching (the utility `iterable.chunked` is not part of this model; this
  // stand-in cuts consecutive batches of at most n entries, none empty)
  // ---------------------------------------------------------------------------

  function Chunked<T>(s: seq<T>, n: nat): (cs: seq<seq<T>>)
    requires n > 0
    ensures forall i :: 0 <= i < |cs| ==> 0 < |cs[i]| <= n
    ensures forall i, x :: 0 <= i < |cs| && x in cs[i] ==> x in s
    decreases |s|
  {
    if s == [] then []
    else if |s| <= n then [s]
    else
      var rest := Chunked(s[n..], n);
      assert forall x :: x in s[n..] ==> x in s;
      assert forall x :: x in s[..n] ==> x in s;
      [s[..n]] + rest
  }

  /** The batches put back together are the entries: chunking drops and repeats nothing. */
  lemma {:induction false} ChunkedFlatten<T>(s: seq<T>, n: nat)
    requires n > 0
    ensures Flatten(Chunked(s, n)) == s
    decreases |s|
  {
    if s == [] {
    } else if |s| <= n {
      FlattenCons(s, []);
      assert s + [] == s;
    } else {
      ChunkedFlatten(s[n..], n);
      FlattenCons(s[..n], Chunked(s[n..], n));
      assert s[..n] + s[n..] == s;
    }
  }

  // ---------------------------------------------------------------------------
  // The keyed store
  // ---------------------------------------------------------------------------

  lemma NonEmptyUnion<K, V>(a: map<K, V>, m: map<K, V>)
    requires m != map[]
    ensures a + m != map[]
  {
    var f :| f in m;
    assert f in a + m;
  }

  /**
   * The part of the keyed store that holds hashes and sets, and the time to
   * live last set on each key. As in the store, a hash or a set whose last
   * member is removed no longer exists, and its time to live goes with it.
   */
  datatype Store = Store(hashes: map<Key, map<Key, BanInfo>>, sets: map<Key, set<Key>>, ttl: map<Key, nat>)
  {
    ghost predicate WellFormed()
    {
      && (forall k :: k in hashes ==> hashes[k] != map[])
      && (forall k :: k in sets ==> sets[k] != {})
      && (forall k :: k in ttl ==> k in hashes || k in sets)
    }

    /**
     * The time to live of each key is the one it had in `s`, and only the keys
     * that still exist keep one: what a store shows after removals.
     */
    ghost predicate TtlFrom(s: Store)
    {
      && (forall k :: k in ttl <==> k in s.ttl && (k in hashes || k in sets))
      && (forall k :: k in ttl ==> ttl[k] == s.ttl[k])
    }

    /** Removals one after another keep the times to live of the keys that survive. */
    lemma TtlFromAfter(s0: Store, s1: Store)
      requires s1.TtlFrom(s0) && TtlFrom(s1)
      requires forall k :: k in hashes ==> k in s1.hashes
      requires forall k :: k in sets ==> k in s1.sets
      ensures TtlFrom(s0)
    {
    }

    /** HGETALL: a missing hash reads as empty. */
    function HashAt(k: Key): map<Key, BanInfo>
    {
      if k in hashes then hashes[k] else map[]
    }

    /** SMEMBERS: a missing set reads as empty. */
    function SetAt(k: Key): set<Key>
    {
      if k in sets then sets[k] else {}
    }

    /** HSET */
    function HSet(k: Key, f: Key, v: BanInfo): (r: Store)
      ensures WellFormed() ==> r.WellFormed()
      ensures r.HashAt(k) == HashAt(k)[f := v]
      ensures forall k' :: k' != k ==> r.HashAt(k') == HashAt(k')
      ensures r.sets == sets && r.ttl == ttl
    {
      assert f in HashAt(k)[f := v];
      Store(hashes[k := HashAt(k)[f := v]], sets, ttl)
    }

    /** HMSET with the fields of a non-empty dictionary; the hash keeps its other fields. */
    function HMSet(k: Key, m: map<Key, BanInfo>): (r: Store)
      requires m != map[]
      ensures WellFormed() ==> r.WellFormed()
      ensures r.HashAt(k) == HashAt(k) + m
      ensures forall k' :: k' != k ==> r.HashAt(k') == HashAt(k')
      ensures r.sets == sets && r.ttl == ttl
    {
      NonEmptyUnion(HashAt(k), m);
      Store(hashes[k := HashAt(k) + m], sets, ttl)
    }

    /** SADD */
    function SAdd(k: Key, member: Key): (r: Store)
      ensures WellFormed() ==> r.WellFormed()
      ensures r.SetAt(k) == SetAt(k) + {member}
      ensures forall k' :: k' != k ==> r.SetAt(k') == SetAt(k')
      ensures r.hashes == hashes && r.ttl == ttl
    {
      Store(hashes, sets[k := SetAt(k) + {member}], ttl)
    }

    /** SREM: removing the last member removes the set. */
    function SRem(k: Key, member: Key): (r: Store)
      ensures WellFormed() ==> r.WellFormed() && r.TtlFrom(this)
      ensures r.SetAt(k) == SetAt(k) - {member}
      ensures forall k' :: k' != k ==> r.SetAt(k') == SetAt(k')
      ensures r.hashes == hashes
    {
      if k !in sets then this
      else if sets[k] - {member} == {} then Store(hashes, sets - {k}, if k in hashes then ttl else ttl - {k})
      else Store(hashes, sets[k := sets[k] - {member}], ttl)
    }

    /** HDEL: removing the last field removes the hash. */
    function HDel(k: Key, f: Key): (r: Store)
      ensures WellFormed() ==> r.WellFormed() && r.TtlFrom(this)
      ensures r.HashAt(k) == HashAt(k) - {f}
      ensures forall k' :: k' != k ==> r.HashAt(k') == HashAt(k')
      ensures r.sets == sets
    {
      if k !in hashes then this
      else if hashes[k] - {f} == map[] then Store(hashes - {k}, sets, if k in sets then ttl else ttl - {k})
      else Store(hashes[k := hashes[k] - {f}], sets, ttl)
    }

    /** DEL of a key that holds no set. */
    function DeleteHash(k: Key): (r: Store)
      requires k !in sets
      ensures WellFormed() ==> r.WellFormed() && r.TtlFrom(this)
      ensures r.HashAt(k) == map[]
      ensures forall k' :: k' != k ==> r.HashAt(k') == HashAt(k')
      ensures r.sets == sets
    {
      Store(hashes - {k}, sets, ttl - {k})
    }

    /** EXPIRE: only a key that exists gets a time to live. */
    function Expire(k: Key, seconds: nat): (r: Store)
      ensures WellFormed() ==> r.WellFormed()
      ensures r.hashes == hashes && r.sets == sets
      ensures r.ttl == if k in hashes || k in sets then ttl[k := seconds] else ttl
    {
      if k in hashes || k in sets then Store(hashes, sets, ttl[k := seconds]) else this
    }
  }

  // ---------------------------------------------------------------------------
  // BanStorage
  // ---------------------------------------------------------------------------

  /** A sequence of distinct keys holding exactly the keys of a set is as long as the set is large. */
  lemma {:induction false} DistinctCount(ks: seq<Key>, keys: set<Key>)
    requires forall i, j :: 0 <= i < j < |ks| ==> ks[i] != ks[j]
    requires forall k :: k in ks <==> k in keys
    ensures |ks| == |keys|
  {
    if ks != [] {
      var last := ks[|ks| - 1];
      var init := ks[..|ks| - 1];
      forall k ensures k in init <==> k in keys - {last} {
        if k in init {
          var i :| 0 <= i < |init| && init[i] == k;
          assert ks[i] == k;
        }
        if k in keys - {last} {
          var i :| 0 <= i < |ks| && ks[i] == k;
          assert i < |init|;
          assert init[i] == k;
        }
      }
      DistinctCount(init, keys - {last});
    }
  }

  /** A key of one key space under one prefix: the two prefix bytes, then an encoded id. */
  predicate InKeySpace(prefix: byte, space: byte, k: Key)
  {
    |k| == 2 + ID_WIDTH && k[0] == prefix && k[1] == space
  }

  /**
   * The shape of the ban keys of a store under one prefix: only guild keys
   * hold hashes, and their fields are encoded ids; only user keys hold sets,
   * and their members are guild keys.
   */
  ghost predicate ShapedUnder(prefix: byte, s: Store)
  {
    && s.WellFormed()
    && (forall g :: g in s.hashes ==> InKeySpace(prefix, GUILD_BAN_PREFIX, g))
    && (forall g, f :: g in s.hashes && f in s.hashes[g] ==> |f| == ID_WIDTH)
    && (forall u :: u in s.sets ==> InKeySpace(prefix, USER_BAN_PREFIX, u))
    && (forall u, g :: u in s.sets && g in s.sets[u] ==> InKeySpace(prefix, GUILD_BAN_PREFIX, g))
  }

  class BanStorage {
    /** The store's top-level prefix byte for bans. */
    const prefix: byte
    /** Seconds a written key lives unless written again. */
    const timeout: nat
    var store: Store

    predicate IsGuildKey(k: Key)
    {
      InKeySpace(prefix, GUILD_BAN_PREFIX, k)
    }

    predicate IsUserKey(k: Key)
    {
      InKeySpace(prefix, USER_BAN_PREFIX, k)
    }

    /** The user key of the user a hash field names. */
    function FieldUserKey(f: Key): Key
    {
      [prefix, USER_BAN_PREFIX] + f
    }

    /**
     * `clear_guild` decodes a field to a user id and encodes that id as a user
     * key; for a well-formed field that is the field behind the user-key prefix.
     */
    lemma DecodeThenEncode(f: Key)
      requires |f| == ID_WIDTH
      ensures DecodeId(f) < 0x1_0000_0000_0000_0000 && UserKey(prefix, DecodeId(f) as Id) == FieldUserKey(f)
    {
      FieldRoundTrip(f);
    }

    lemma FieldUserKeyInjective(f: Key, f': Key)
      ensures FieldUserKey(f) == FieldUserKey(f') <==> f == f'
    {
      if FieldUserKey(f) == FieldUserKey(f') {
        assert FieldUserKey(f)[2..] == f && FieldUserKey(f')[2..] == f';
      }
    }

    /** The store holds guild hashes keyed by encoded user ids, and user sets of guild keys. */
    ghost predicate Shaped(s: Store)
    {
      ShapedUnder(prefix, s)
    }

    lemma HSetShaped(s: Store, k: Key, f: Key, v: BanInfo)
      requires Shaped(s) && IsGuildKey(k) && |f| == ID_WIDTH
      ensures Shaped(s.HSet(k, f, v))
    {
      var r := s.HSet(k, f, v);
      assert forall k' :: k' in r.hashes ==> k' == k || k' in s.hashes;
    }

    lemma HMSetShaped(s: Store, k: Key, m: map<Key, BanInfo>)
      requires Shaped(s) && IsGuildKey(k) && m != map[] && forall f :: f in m ==> |f| == ID_WIDTH
      ensures Shaped(s.HMSet(k, m))
    {
      var r := s.HMSet(k, m);
      assert forall k' :: k' in r.hashes ==> k' == k || k' in s.hashes;
    }

    lemma SAddShaped(s: Store, u: Key, g: Key)
      requires Shaped(s) && IsUserKey(u) && IsGuildKey(g)
      ensures Shaped(s.SAdd(u, g))
    {
      var r := s.SAdd(u, g);
      assert forall k' :: k' in r.sets ==> k' == u || k' in s.sets;
    }

    lemma HDelShaped(s: Store, k: Key, f: Key)
      requires Shaped(s)
      ensures Shaped(s.HDel(k, f))
    {
      var r := s.HDel(k, f);
      assert forall k' :: k' in r.hashes ==> k' in s.hashes && r.hashes[k'].Keys <= s.hashes[k'].Keys;
    }

    lemma SRemShaped(s: Store, u: Key, g: Key)
      requires Shaped(s)
      ensures Shaped(s.SRem(u, g))
    {
      var r := s.SRem(u, g);
      assert forall k' :: k' in r.sets ==> k' in s.sets && r.sets[k'] <= s.sets[k'];
    }

    lemma ExpireShaped(s: Store, k: Key, seconds: nat)
      requires Shaped(s)
      ensures Shaped(s.Expire(k, seconds))
    {
    }

    /**
     * The two indices are in step: a guild's hash lists a user exactly when the
     * user's set lists the guild.
     */
    ghost predicate Linked(hashes: map<Key, map<Key, BanInfo>>, sets: map<Key, set<Key>>)
    {
      && (forall g, f :: g in hashes && f in hashes[g] ==> FieldUserKey(f) in sets && g in sets[FieldUserKey(f)])
      && (forall u, g :: u in sets && g in sets[u] ==> g in hashes && |u| >= 2 && u[2..] in hashes[g])
    }

    ghost predicate Valid()
      reads this
    {
      Shaped(store)
    }

    /** Transactions keep the indices in step; only the store's own expiry of keys can break it. */
    ghost predicate InStep()
      reads this
    {
      Linked(store.hashes, store.sets)
    }

    /**
     * `__init__`: a view of the shared store under one prefix. The store keeps
     * whatever earlier runs left in it; its indices need not be in step.
     */
    constructor (prefix: byte, timeout: nat, redis: Store)
      requires ShapedUnder(prefix, redis)
      ensures this.prefix == prefix && this.timeout == timeout
      ensures store == redis
      ensures Valid()
    {
      this.prefix := prefix;
      this.timeout := timeout;
      store := redis;
    }

    lemma UserKeyShape(u: Key)
      requires IsUserKey(u)
      ensures u == FieldUserKey(u[2..])
    {
    }

    /** Writing one field and listing its guild in its user's set keeps the indices in step. */
    lemma LinkedAfterSave(s: Store, gk: Key, f: Key, v: BanInfo)
      requires Linked(s.hashes, s.sets)
      ensures var s' := s.HSet(gk, f, v).SAdd(FieldUserKey(f), gk);
        Linked(s'.hashes, s'.sets)
    {
      var uk := FieldUserKey(f);
      var s' := s.HSet(gk, f, v).SAdd(uk, gk);
      forall g, f' | g in s'.hashes && f' in s'.hashes[g] ensures FieldUserKey(f') in s'.sets && g in s'.sets[FieldUserKey(f')] {
        assert f' in s'.HashAt(g);
        if g != gk || f' != f {
          assert f' in s.HashAt(g);
          assert g in s.SetAt(FieldUserKey(f'));
          assert g in s'.SetAt(FieldUserKey(f'));
        } else {
          assert g in s'.SetAt(uk);
        }
      }
      forall u, g | u in s'.sets && g in s'.sets[u] ensures g in s'.hashes && |u| >= 2 && u[2..] in s'.hashes[g] {
        assert g in s'.SetAt(u);
        if u != uk || g != gk {
          assert g in s.SetAt(u);
          assert u[2..] in s.HashAt(g);
          assert u[2..] in s'.HashAt(g);
        } else {
          assert u[2..] == f;
          assert f in s'.HashAt(gk);
        }
      }
    }

    /** The commands of `save_ban`'s transaction, in order. */
    function SaveBanTx(s: Store, g: Guild, ban: Ban, adminConfigs: map<Id, AdminConfig>): Store
    {
      var gk, uk := GuildKey(prefix, g.id), UserKey(prefix, ban.user.id);
      var entry := EncodeBan(g, ban, IsGuildBlocked(adminConfigs, g.id));
      s.HSet(gk, entry.0, entry.1).SAdd(uk, gk).Expire(gk, timeout).Expire(uk, timeout)
    }

    /**
     * What `save_ban` leaves in the store: the guild's hash maps the banned
     * user's encoded id to the ban's record, the user's set lists the guild,
     * both keys live `timeout` seconds, and no other hash or set changes.
     */
    lemma SaveBanEffect(s: Store, g: Guild, ban: Ban, adminConfigs: map<Id, AdminConfig>)
      ensures var s', gk, uk := SaveBanTx(s, g, ban, adminConfigs), GuildKey(prefix, g.id), UserKey(prefix, ban.user.id);
        var info := EncodeBan(g, ban, IsGuildBlocked(adminConfigs, g.id)).1;
        && s'.HashAt(gk) == s.HashAt(gk)[EncodeId(ban.user.id) := info]
        && s'.HashAt(gk)[EncodeId(ban.user.id)].guildId == g.id
        && s'.HashAt(gk)[EncodeId(ban.user.id)].guildBlocked == (g.id in adminConfigs && !adminConfigs[g.id].sourceBans)
        && s'.SetAt(uk) == s.SetAt(uk) + {gk}
        && (forall k :: k != gk ==> s'.HashAt(k) == s.HashAt(k))
        && (forall k :: k != uk ==> s'.SetAt(k) == s.SetAt(k))
        && s'.ttl == s.ttl[gk := timeout][uk := timeout]
    {
    }

    /** `save_ban` keeps the store's shape, and keeps the indices in step. */
    lemma SaveBanKeepsValid(s: Store, g: Guild, ban: Ban, adminConfigs: map<Id, AdminConfig>)
      requires Shaped(s)
      ensures Shaped(SaveBanTx(s, g, ban, adminConfigs))
      ensures var s' := SaveBanTx(s, g, ban, adminConfigs);
        Linked(s.hashes, s.sets) ==> Linked(s'.hashes, s'.sets)
    {
      var gk := GuildKey(prefix, g.id);
      var entry := EncodeBan(g, ban, IsGuildBlocked(adminConfigs, g.id));
      var uk := FieldUserKey(entry.0);
      assert uk == UserKey(prefix, ban.user.id);
      HSetShaped(s, gk, entry.0, entry.1);
      var s1 := s.HSet(gk, entry.0, entry.1);
      SAddShaped(s1, uk, gk);
      var s2 := s1.SAdd(uk, gk);
      ExpireShaped(s2, gk, timeout);
      ExpireShaped(s2.Expire(gk, timeout), uk, timeout);
      if Linked(s.hashes, s.sets) {
        LinkedAfterSave(s, gk, entry.0, entry.1);
      }
    }

    /**
     * `save_ban`: one transaction that writes the ban into the guild's hash,
     * adds the guild to the user's set and refreshes both keys' time to live.
     */
    method SaveBan(g: Guild, ban: Ban, adminConfigs: map<Id, AdminConfig>)
      requires Valid()
      modifies this
      ensures store == SaveBanTx(old(store), g, ban, adminConfigs)
      ensures Valid()
      ensures old(InStep()) ==> InStep()
    {
      var blocked := IsGuildBlocked(adminConfigs, g.id);
      var gk := GuildKey(prefix, g.id);
      var uk := UserKey(prefix, ban.user.id);
      var entry := EncodeBan(g, ban, blocked);
      SaveBanKeepsValid(store, g, ban, adminConfigs);
      store := store.HSet(gk, entry.0, entry.1).SAdd(uk, gk).Expire(gk, timeout).Expire(uk, timeout);
    }

    /** The user keys of a list of bans. */
    function UserKeys(bans: seq<Ban>): set<Key>
    {
      set b | b in bans :: UserKey(prefix, b.user.id)
    }

    /** The user keys of a list of bans, in order. */
    function UserKeySeq(bans: seq<Ban>): (uks: seq<Key>)
      ensures |uks| == |bans|
      ensures forall i :: 0 <= i < |bans| ==> uks[i] == UserKey(prefix, bans[i].user.id)
    {
      seq(|bans|, i requires 0 <= i < |bans| => UserKey(prefix, bans[i].user.id))
    }

    /** The user keys of a set of hash fields. */
    function FieldUserKeys(fs: set<Key>): set<Key>
    {
      set f | f in fs :: FieldUserKey(f)
    }

    lemma UserKeysOfFields(g: Guild, bans: seq<Ban>, blocked: bool)
      ensures UserKeys(bans) == FieldUserKeys(EntriesMap(Encoded(g, bans, blocked)).Keys)
    {
      BanEntries(g, bans, blocked);
      forall b | b in bans ensures UserKey(prefix, b.user.id) in FieldUserKeys(EntriesMap(Encoded(g, bans, blocked)).Keys) {
        assert EncodeId(b.user.id) in EntriesMap(Encoded(g, bans, blocked)).Keys;
      }
    }

    lemma UserKeySeqMembers(bans: seq<Ban>)
      ensures forall u :: u in UserKeySeq(bans) <==> u in UserKeys(bans)
    {
      var uks := UserKeySeq(bans);
      forall u | u in UserKeys(bans) ensures u in uks {
        var b :| b in bans && u == UserKey(prefix, b.user.id);
        var i :| 0 <= i < |bans| && bans[i] == b;
        assert uks[i] == u;
      }
    }

    /** HMSET of each batch in turn. */
    function WriteChunks(s: Store, gk: Key, chunks: seq<seq<(Key, BanInfo)>>): Store
      requires forall i :: 0 <= i < |chunks| ==> chunks[i] != []
    {
      if chunks == [] then s
      else
        var c := chunks[|chunks| - 1];
        EntriesMapNonEmpty(c);
        WriteChunks(s, gk, chunks[..|chunks| - 1]).HMSet(gk, EntriesMap(c))
    }

    /** SADD of the guild to each user key, each followed by EXPIRE of that key. */
    function AddToUsers(s: Store, gk: Key, uks: seq<Key>): Store
    {
      if uks == [] then s
      else
        var uk := uks[|uks| - 1];
        AddToUsers(s, gk, uks[..|uks| - 1]).SAdd(uk, gk).Expire(uk, timeout)
    }

    /**
     * The commands of `save_bans`'s transaction, in order: nothing when the bot
     * may not see the guild's bans or there are none.
     */
    function SaveBansTx(s: Store, g: Guild, botCanBan: bool, bans: seq<Ban>, adminConfigs: map<Id, AdminConfig>): Store
    {
      if !botCanBan || |bans| <= 0 then s
      else
        var gk := GuildKey(prefix, g.id);
        var chunks := Chunked(Encoded(g, bans, IsGuildBlocked(adminConfigs, g.id)), MAX_CHUNK_SIZE);
        AddToUsers(WriteChunks(s, gk, chunks), gk, UserKeySeq(bans)).Expire(gk, timeout)
    }

    /** Writing the batches adds the fields of all of them to the guild's hash, and changes nothing else. */
    lemma {:induction false} WriteChunksEffect(s: Store, gk: Key, chunks: seq<seq<(Key, BanInfo)>>)
      requires forall i :: 0 <= i < |chunks| ==> chunks[i] != []
      ensures WriteChunks(s, gk, chunks).HashAt(gk) == s.HashAt(gk) + EntriesMap(Flatten(chunks))
      ensures forall k :: k != gk ==> WriteChunks(s, gk, chunks).HashAt(k) == s.HashAt(k)
      ensures WriteChunks(s, gk, chunks).sets == s.sets && WriteChunks(s, gk, chunks).ttl == s.ttl
    {
      if chunks != [] {
        var init, c := chunks[..|chunks| - 1], chunks[|chunks| - 1];
        WriteChunksEffect(s, gk, init);
        EntriesMapAppend(Flatten(init), c);
        MapUnionAssoc(s.HashAt(gk), EntriesMap(Flatten(init)), EntriesMap(c));
      }
    }

    lemma {:induction false} WriteChunksShaped(s: Store, gk: Key, chunks: seq<seq<(Key, BanInfo)>>)
      requires Shaped(s) && IsGuildKey(gk)
      requires forall i :: 0 <= i < |chunks| ==> chunks[i] != []
      requires forall i, e :: 0 <= i < |chunks| && e in chunks[i] ==> |e.0| == ID_WIDTH
      ensures Shaped(WriteChunks(s, gk, chunks))
    {
      if chunks != [] {
        var init, c := chunks[..|chunks| - 1], chunks[|chunks| - 1];
        WriteChunksShaped(s, gk, init);
        EntriesMapKeys(c);
        EntriesMapNonEmpty(c);
        HMSetShaped(WriteChunks(s, gk, init), gk, EntriesMap(c));
      }
    }

    /**
     * Adding the guild to the users' sets lists the guild in exactly those
     * sets and changes no hash.
     */
    lemma {:induction false} AddToUsersSets(s: Store, gk: Key, uks: seq<Key>)
      ensures AddToUsers(s, gk, uks).hashes == s.hashes
      ensures forall u :: AddToUsers(s, gk, uks).SetAt(u) == if u in uks then s.SetAt(u) + {gk} else s.SetAt(u)
    {
      if uks != [] {
        var init, uk := uks[..|uks| - 1], uks[|uks| - 1];
        AddToUsersSets(s, gk, init);
        assert uks == init + [uk];
      }
    }

    /** Adding the guild to the users' sets gives exactly those keys `timeout` seconds to live. */
    lemma {:induction false} AddToUsersTtl(s: Store, gk: Key, uks: seq<Key>)
      ensures forall k :: k in AddToUsers(s, gk, uks).ttl <==> k in s.ttl || k in uks
      ensures forall k :: k in AddToUsers(s, gk, uks).ttl ==>
        AddToUsers(s, gk, uks).ttl[k] == if k in uks then timeout else s.ttl[k]
    {
      if uks != [] {
        var init, uk := uks[..|uks| - 1], uks[|uks| - 1];
        AddToUsersTtl(s, gk, init);
        assert uks == init + [uk];
      }
    }

    lemma {:induction false} AddToUsersShaped(s: Store, gk: Key, uks: seq<Key>)
      requires Shaped(s) && IsGuildKey(gk)
      requires forall i :: 0 <= i < |uks| ==> IsUserKey(uks[i])
      ensures Shaped(AddToUsers(s, gk, uks))
    {
      if uks != [] {
        var init, uk := uks[..|uks| - 1], uks[|uks| - 1];
        AddToUsersShaped(s, gk, init);
        SAddShaped(AddToUsers(s, gk, init), uk, gk);
        ExpireShaped(AddToUsers(s, gk, init).SAdd(uk, gk), uk, timeout);
      }
    }

    /**
     * After the batches are written, adding the guild to the banned users'
     * sets and refreshing the keys lists the guild in exactly those sets and
     * gives the guild key and exactly those user keys `timeout` seconds.
     */
    lemma UsersAfterSave(s: Store, w: Store, gk: Key, bans: seq<Ban>)
      requires w.sets == s.sets
      ensures var s' := AddToUsers(w, gk, UserKeySeq(bans)).Expire(gk, timeout);
        && s'.hashes == w.hashes
        && (forall u :: s'.SetAt(u) == if u in UserKeys(bans) then s.SetAt(u) + {gk} else s.SetAt(u))
    {
      AddToUsersSets(w, gk, UserKeySeq(bans));
      UserKeySeqMembers(bans);
    }

    /** After the batches are written, the user keys and then the guild key get `timeout` seconds to live. */
    lemma TtlAfterSave(s: Store, w: Store, gk: Key, bans: seq<Ban>)
      requires gk in w.hashes && w.ttl == s.ttl
      ensures var s' := AddToUsers(w, gk, UserKeySeq(bans)).Expire(gk, timeout);
        && (forall k :: k in s'.ttl <==> k in s.ttl || k in UserKeys(bans) || k == gk)
        && (forall k :: k in s'.ttl ==> s'.ttl[k] == if k == gk || k in UserKeys(bans) then timeout else s.ttl[k])
    {
      AddToUsersSets(w, gk, UserKeySeq(bans));
      AddToUsersTtl(w, gk, UserKeySeq(bans));
      UserKeySeqMembers(bans);
    }

    /** Writing at least one batch creates the guild's hash. */
    lemma WriteChunksCreates(s: Store, gk: Key, entries: seq<(Key, BanInfo)>)
      requires entries != []
      ensures gk in WriteChunks(s, gk, Chunked(entries, MAX_CHUNK_SIZE)).hashes
    {
      var chunks := Chunked(entries, MAX_CHUNK_SIZE);
      WriteChunksEffect(s, gk, chunks);
      ChunkedFlatten(entries, MAX_CHUNK_SIZE);
      EntriesMapNonEmpty(entries);
      var f :| f in EntriesMap(entries);
      assert f in WriteChunks(s, gk, chunks).HashAt(gk);
    }

    /**
     * What `save_bans` leaves in the hashes: when it writes, the guild's hash
     * gains one field per banned user holding that user's ban record and keeps
     * its other fields, and no other hash changes. When it does not write,
     * nothing changes at all.
     */
    lemma SaveBansWritesHash(s: Store, g: Guild, botCanBan: bool, bans: seq<Ban>, adminConfigs: map<Id, AdminConfig>)
      ensures !botCanBan || bans == [] ==> SaveBansTx(s, g, botCanBan, bans, adminConfigs) == s
      ensures botCanBan && bans != [] ==>
        var s', gk := SaveBansTx(s, g, botCanBan, bans, adminConfigs), GuildKey(prefix, g.id);
        && s'.HashAt(gk) == s.HashAt(gk) + EntriesMap(Encoded(g, bans, IsGuildBlocked(adminConfigs, g.id)))
        && (forall k :: k != gk ==> s'.HashAt(k) == s.HashAt(k))
    {
      if botCanBan && bans != [] {
        var gk := GuildKey(prefix, g.id);
        var entries := Encoded(g, bans, IsGuildBlocked(adminConfigs, g.id));
        var chunks := Chunked(entries, MAX_CHUNK_SIZE);
        WriteChunksEffect(s, gk, chunks);
        ChunkedFlatten(entries, MAX_CHUNK_SIZE);
        AddToUsersSets(WriteChunks(s, gk, chunks), gk, UserKeySeq(bans));
      }
    }

    /**
     * Every record `save_bans` writes belongs to the guild and carries the
     * guild's blocked flag: set exactly when the guild has an admin
     * configuration that opts out of sourcing bans.
     */
    lemma SaveBansBlockedFlag(s: Store, g: Guild, botCanBan: bool, bans: seq<Ban>, adminConfigs: map<Id, AdminConfig>)
      ensures botCanBan ==>
        var h := SaveBansTx(s, g, botCanBan, bans, adminConfigs).HashAt(GuildKey(prefix, g.id));
        forall b :: b in bans ==>
          && EncodeId(b.user.id) in h
          && h[EncodeId(b.user.id)].guildId == g.id
          && h[EncodeId(b.user.id)].guildBlocked == (g.id in adminConfigs && !adminConfigs[g.id].sourceBans)
    {
      if botCanBan && bans != [] {
        var blocked := IsGuildBlocked(adminConfigs, g.id);
        var entries := EntriesMap(Encoded(g, bans, blocked));
        SaveBansWritesHash(s, g, botCanBan, bans, adminConfigs);
        BanEntries(g, bans, blocked);
        forall b | b in bans
          ensures EncodeId(b.user.id) in entries
          ensures entries[EncodeId(b.user.id)].guildId == g.id && entries[EncodeId(b.user.id)].guildBlocked == blocked
        {
          var f := EncodeId(b.user.id);
          assert f in entries.Keys;
          var b' :| b' in bans && EncodeBan(g, b', blocked) == (f, entries[f]);
        }
      }
    }

    /**
     * What `save_bans` leaves in the sets and the times to live when it
     * writes: exactly the banned users' sets gain the guild, the guild key and
     * exactly the banned users' keys live `timeout` seconds, and every other
     * key keeps its time to live.
     */
    lemma SaveBansAddsUsers(s: Store, g: Guild, botCanBan: bool, bans: seq<Ban>, adminConfigs: map<Id, AdminConfig>)
      requires botCanBan && bans != []
      ensures var s', gk := SaveBansTx(s, g, botCanBan, bans, adminConfigs), GuildKey(prefix, g.id);
        && (forall u :: s'.SetAt(u) == if u in UserKeys(bans) then s.SetAt(u) + {gk} else s.SetAt(u))
        && (forall k :: k in s'.ttl <==> k in s.ttl || k in UserKeys(bans) || k == gk)
        && (forall k :: k in s'.ttl ==> s'.ttl[k] == if k == gk || k in UserKeys(bans) then timeout else s.ttl[k])
    {
      var gk := GuildKey(prefix, g.id);
      var entries := Encoded(g, bans, IsGuildBlocked(adminConfigs, g.id));
      var chunks := Chunked(entries, MAX_CHUNK_SIZE);
      WriteChunksEffect(s, gk, chunks);
      WriteChunksCreates(s, gk, entries);
      UsersAfterSave(s, WriteChunks(s, gk, chunks), gk, bans);
      TtlAfterSave(s, WriteChunks(s, gk, chunks), gk, bans);
    }

    /** `save_bans` keeps the store's shape, and keeps the indices in step. */
    lemma SaveBansKeepsValid(s: Store, g: Guild, botCanBan: bool, bans: seq<Ban>, adminConfigs: map<Id, AdminConfig>)
      requires Shaped(s)
      ensures Shaped(SaveBansTx(s, g, botCanBan, bans, adminConfigs))
      ensures var s' := SaveBansTx(s, g, botCanBan, bans, adminConfigs);
        Linked(s.hashes, s.sets) ==> Linked(s'.hashes, s'.sets)
    {
      if botCanBan && bans != [] {
        var gk := GuildKey(prefix, g.id);
        var blocked := IsGuildBlocked(adminConfigs, g.id);
        var entries := Encoded(g, bans, blocked);
        var chunks := Chunked(entries, MAX_CHUNK_SIZE);
        WriteChunksShaped(s, gk, chunks);
        var w := WriteChunks(s, gk, chunks);
        AddToUsersShaped(w, gk, UserKeySeq(bans));
        ExpireShaped(AddToUsers(w, gk, UserKeySeq(bans)), gk, timeout);
        if Linked(s.hashes, s.sets) {
          SaveBansWritesHash(s, g, botCanBan, bans, adminConfigs);
          SaveBansAddsUsers(s, g, botCanBan, bans, adminConfigs);
          UserKeysOfFields(g, bans, blocked);
          LinkedAfterSaveAll(s, SaveBansTx(s, g, botCanBan, bans, adminConfigs), gk, EntriesMap(entries));
        }
      }
    }

    /**
     * Adding fields to one guild's hash and the guild to the sets of exactly
     * the users those fields name keeps the indices in step.
     */
    lemma LinkedAfterSaveAll(s: Store, s': Store, gk: Key, m: map<Key, BanInfo>)
      requires Linked(s.hashes, s.sets)
      requires s'.HashAt(gk) == s.HashAt(gk) + m
      requires forall k :: k != gk ==> s'.HashAt(k) == s.HashAt(k)
      requires forall u :: s'.SetAt(u) == if u in FieldUserKeys(m.Keys) then s.SetAt(u) + {gk} else s.SetAt(u)
      ensures Linked(s'.hashes, s'.sets)
    {
      forall g, f | g in s'.hashes && f in s'.hashes[g] ensures FieldUserKey(f) in s'.sets && g in s'.sets[FieldUserKey(f)] {
        assert f in s'.HashAt(g);
        if g == gk && f in m {
          assert FieldUserKey(f) in FieldUserKeys(m.Keys);
          assert g in s'.SetAt(FieldUserKey(f));
        } else {
          assert f in s.HashAt(g);
          assert g in s.SetAt(FieldUserKey(f));
          assert g in s'.SetAt(FieldUserKey(f));
        }
      }
      forall u, g | u in s'.sets && g in s'.sets[u] ensures g in s'.hashes && |u| >= 2 && u[2..] in s'.hashes[g] {
        assert g in s'.SetAt(u);
        if u in FieldUserKeys(m.Keys) && g == gk {
          var f :| f in m && u == FieldUserKey(f);
          FieldUserKeyInjective(u[2..], f);
          assert u[2..] == f;
          assert f in s'.HashAt(gk);
        } else {
          assert g in s.SetAt(u);
          assert u in s.sets && g in s.sets[u];
          assert g in s.hashes && |u| >= 2 && u[2..] in s.hashes[g];
          assert u[2..] in s'.HashAt(g);
        }
      }
    }

    /**
     * `save_bans`: when the bot may see the guild's bans and there is at least
     * one, one transaction writes every ban into the guild's hash in batches
     * of at most 1024 fields, adds the guild to every banned user's set, and
     * refreshes the time to live of each user key and then of the guild key.
     * `bans` is what the platform listed.
     */
    method SaveBans(g: Guild, botCanBan: bool, bans: seq<Ban>, adminConfigs: map<Id, AdminConfig>)
      requires Valid()
      modifies this
      ensures store == SaveBansTx(old(store), g, botCanBan, bans, adminConfigs)
      ensures Valid()
      ensures old(InStep()) ==> InStep()
    {
      SaveBansKeepsValid(store, g, botCanBan, bans, adminConfigs);
      if !botCanBan {
        return;
      }
      if |bans| <= 0 {
        return;
      }
      var blocked := IsGuildBlocked(adminConfigs, g.id);
      var gk := GuildKey(prefix, g.id);
      var entries := Encoded(g, bans, blocked);
      var chunks := Chunked(entries, MAX_CHUNK_SIZE);
      WriteBatches(gk, chunks);
      AddToUserSets(gk, bans);
      store := store.Expire(gk, timeout);
    }

    /** The HMSET loop of `save_bans`. */
    method WriteBatches(gk: Key, chunks: seq<seq<(Key, BanInfo)>>)
      requires forall i :: 0 <= i < |chunks| ==> chunks[i] != []
      modifies this
      ensures store == WriteChunks(old(store), gk, chunks)
    {
      for i := 0 to |chunks|
        invariant store == WriteChunks(old(store), gk, chunks[..i])
      {
        assert chunks[..i + 1][..i] == chunks[..i];
        EntriesMapNonEmpty(chunks[i]);
        store := store.HMSet(gk, EntriesMap(chunks[i]));
      }
      assert chunks[..|chunks|] == chunks;
    }

    /** The SADD and EXPIRE loop of `save_bans`. */
    method AddToUserSets(gk: Key, bans: seq<Ban>)
      modifies this
      ensures store == AddToUsers(old(store), gk, UserKeySeq(bans))
    {
      ghost var uks := UserKeySeq(bans);
      for j := 0 to |bans|
        invariant store == AddToUsers(old(store), gk, uks[..j])
      {
        var userKey := UserKey(prefix, bans[j].user.id);
        assert uks[..j + 1][..j] == uks[..j];
        store := store.SAdd(userKey, gk).Expire(userKey, timeout);
      }
      assert uks[..|bans|] == uks;
    }

    /**
     * `get_guild_bans`: every record in the guild's hash, one per field, in
     * the store's order; none when the hash does not exist. `fields` names,
     * position by position, the field each record was read from.
     */
    method GetGuildBans(guildId: Id) returns (bans: seq<BanInfo>, ghost fields: seq<Key>)
      ensures |bans| == |store.HashAt(GuildKey(prefix, guildId))|
      ensures forall x :: x in bans ==> x in store.HashAt(GuildKey(prefix, guildId)).Values
      ensures var h := store.HashAt(GuildKey(prefix, guildId));
        && |fields| == |bans|
        && (forall i, j :: 0 <= i < j < |fields| ==> fields[i] != fields[j])
        && (forall f :: f in fields <==> f in h)
        && (forall i :: 0 <= i < |bans| ==> fields[i] in h && bans[i] == h[fields[i]])
    {
      var h := store.HashAt(GuildKey(prefix, guildId));
      bans, fields := [], [];
      var remaining := h.Keys;
      while remaining != {}
        invariant remaining <= h.Keys
        invariant |fields| == |bans| && |bans| + |remaining| == |h.Keys|
        invariant forall i, j :: 0 <= i < j < |fields| ==> fields[i] != fields[j]
        invariant forall f :: f in fields <==> f in h.Keys - remaining
        invariant forall i :: 0 <= i < |bans| ==> fields[i] in h && bans[i] == h[fields[i]]
        decreases |remaining|
      {
        var f :| f in remaining;
        assert f !in fields;
        bans, fields := bans + [h[f]], fields + [f];
        remaining := remaining - {f};
      }
    }

    /** The guild keys in a user's set whose hash still lists the user. */
    function LiveGuilds(userId: Id): set<Key>
      reads this
    {
      set g | g in store.SetAt(UserKey(prefix, userId)) && EncodeId(userId) in store.HashAt(g)
    }

    /**
     * `get_user_bans`: for every guild in the user's set, the guild's record
     * of the user; a guild whose hash no longer lists the user is skipped.
     * With the indices in step, every guild in the user's set counts.
     * `guilds` names, position by position, the guild each record was read from.
     */
    method GetUserBans(userId: Id) returns (bans: seq<BanInfo>, ghost guilds: seq<Key>)
      ensures |guilds| == |bans| == |LiveGuilds(userId)|
      ensures forall i, j :: 0 <= i < j < |guilds| ==> guilds[i] != guilds[j]
      ensures forall g :: g in guilds <==> g in LiveGuilds(userId)
      ensures forall i :: 0 <= i < |bans| ==>
        EncodeId(userId) in store.HashAt(guilds[i]) && bans[i] == store.HashAt(guilds[i])[EncodeId(userId)]
      ensures store.SetAt(UserKey(prefix, userId)) == {} ==> bans == []
    {
      var st := store;
      var guildKeys := st.SetAt(UserKey(prefix, userId));
      if |guildKeys| <= 0 {
        assert LiveGuilds(userId) == {};
        return [], [];
      }
      var field := EncodeId(userId);
      bans, guilds := [], [];
      var remaining := guildKeys;
      while remaining != {}
        invariant remaining <= guildKeys
        invariant |guilds| == |bans|
        invariant forall i, j :: 0 <= i < j < |guilds| ==> guilds[i] != guilds[j]
        invariant forall g :: g in guilds <==> g in guildKeys - remaining && field in st.HashAt(g)
        invariant forall i :: 0 <= i < |bans| ==> field in st.HashAt(guilds[i]) && bans[i] == st.HashAt(guilds[i])[field]
        decreases |remaining|
      {
        var g :| g in remaining;
        var hash := st.HashAt(g);
        if field in hash {
          assert g !in guilds;
          bans, guilds := bans + [hash[field]], guilds + [g];
        }
        remaining := remaining - {g};
      }
      DistinctCount(guilds, LiveGuilds(userId));
    }

    /** With the indices in step, a user's live guilds are all the guilds in the user's set. */
    lemma InStepAllLive(userId: Id)
      requires Valid() && InStep()
      ensures LiveGuilds(userId) == store.SetAt(UserKey(prefix, userId))
    {
      var uk := UserKey(prefix, userId);
      IdRoundTrip(userId);
      assert uk[2..] == EncodeId(userId);
      forall g | g in store.SetAt(uk) ensures EncodeId(userId) in store.HashAt(g) {
        assert g in store.sets[uk];
      }
    }

    /**
     * Removing a guild's hash and the guild from the sets of exactly the
     * users it listed keeps the indices in step.
     */
    lemma LinkedAfterClearGuild(s: Store, s': Store, gk: Key)
      requires Shaped(s) && Linked(s.hashes, s.sets)
      requires s'.hashes == s.hashes - {gk}
      requires forall u :: s'.SetAt(u) == if u in FieldUserKeys(s.HashAt(gk).Keys) then s.SetAt(u) - {gk} else s.SetAt(u)
      ensures Linked(s'.hashes, s'.sets)
    {
      forall g, f | g in s'.hashes && f in s'.hashes[g] ensures FieldUserKey(f) in s'.sets && g in s'.sets[FieldUserKey(f)] {
        assert g != gk && g in s.hashes && f in s.hashes[g];
        assert g in s.SetAt(FieldUserKey(f));
        assert g in s'.SetAt(FieldUserKey(f));
      }
      forall u, g | u in s'.sets && g in s'.sets[u] ensures g in s'.hashes && |u| >= 2 && u[2..] in s'.hashes[g] {
        assert g in s'.SetAt(u);
        assert g in s.SetAt(u);
        assert u in s.sets && g in s.sets[u];
        UserKeyShape(u);
        assert u[2..] in s.hashes[g];
      }
    }

    lemma FieldUserKeysAdd(fs: set<Key>, f: Key)
      ensures FieldUserKeys(fs + {f}) == FieldUserKeys(fs) + {FieldUserKey(f)}
    {
    }

    /** The state of `clear_guild`'s transaction once the fields `done` are handled. */
    ghost predicate ClearedUpTo(s0: Store, s: Store, gk: Key, done: set<Key>)
    {
      && Shaped(s)
      && s.hashes == s0.hashes - {gk}
      && (forall u :: s.SetAt(u) == if u in FieldUserKeys(done) then s0.SetAt(u) - {gk} else s0.SetAt(u))
      && s.TtlFrom(s0)
    }

    lemma ClearStart(s0: Store, gk: Key)
      requires Shaped(s0) && IsGuildKey(gk)
      ensures gk !in s0.sets && ClearedUpTo(s0, s0.DeleteHash(gk), gk, {})
    {
    }

    lemma ClearStep(s0: Store, s: Store, gk: Key, done: set<Key>, f: Key)
      requires ClearedUpTo(s0, s, gk, done) && IsGuildKey(gk)
      ensures ClearedUpTo(s0, s.SRem(FieldUserKey(f), gk), gk, done + {f})
    {
      FieldUserKeysAdd(done, f);
      var s' := s.SRem(FieldUserKey(f), gk);
      SRemShaped(s, FieldUserKey(f), gk);
      s'.TtlFromAfter(s0, s);
    }

    /** Clearing a guild that has no hash leaves the store as it was. */
    lemma ClearedNothing(s0: Store, s: Store, gk: Key)
      requires Shaped(s0) && gk !in s0.hashes && ClearedUpTo(s0, s, gk, {})
      ensures s == s0
    {
      assert s.hashes == s0.hashes;
      forall u | u in s.sets ensures u in s0.sets && s.sets[u] == s0.sets[u] {
        assert s.SetAt(u) == s0.SetAt(u);
      }
      forall u | u in s0.sets ensures u in s.sets {
        assert s.SetAt(u) == s0.SetAt(u);
      }
      assert s.sets == s0.sets;
      assert s.ttl == s0.ttl;
    }

    lemma ClearGuildDone(s0: Store, s: Store, gk: Key)
      requires Shaped(s0) && ClearedUpTo(s0, s, gk, s0.HashAt(gk).Keys)
      ensures Shaped(s)
      ensures s.HashAt(gk) == map[]
      ensures forall k :: k != gk ==> s.HashAt(k) == s0.HashAt(k)
      ensures forall u :: s.SetAt(u) == if u in FieldUserKeys(s0.HashAt(gk).Keys) then s0.SetAt(u) - {gk} else s0.SetAt(u)
      ensures s.TtlFrom(s0)
      ensures s0.HashAt(gk) == map[] ==> s == s0
      ensures Linked(s0.hashes, s0.sets) ==> Linked(s.hashes, s.sets)
    {
      if s0.HashAt(gk) == map[] {
        ClearedNothing(s0, s, gk);
      }
      if Linked(s0.hashes, s0.sets) {
        LinkedAfterClearGuild(s0, s, gk);
      }
    }

    /**
     * `clear_guild`: one transaction deletes the guild's hash and removes the
     * guild from the set of every user it listed; a guild with no hash
     * changes nothing.
     */
    method ClearGuild(guildId: Id)
      requires Valid()
      modifies this
      ensures Valid()
      ensures var gk := GuildKey(prefix, guildId);
        && store.HashAt(gk) == map[]
        && (forall k :: k != gk ==> store.HashAt(k) == old(store.HashAt(k)))
        && (forall u :: store.SetAt(u) ==
              if u in FieldUserKeys(old(store.HashAt(gk)).Keys) then old(store.SetAt(u)) - {gk} else old(store.SetAt(u)))
        && store.TtlFrom(old(store))
      ensures old(store.HashAt(GuildKey(prefix, guildId))) == map[] ==> store == old(store)
      ensures old(InStep()) ==> InStep()
    {
      var gk := GuildKey(prefix, guildId);
      var bansEnc := store.HashAt(gk);
      ghost var s0 := store;
      ClearStart(s0, gk);
      store := store.DeleteHash(gk);
      ghost var done: set<Key> := {};
      var remaining := bansEnc.Keys;
      while remaining != {}
        invariant remaining <= bansEnc.Keys && done == bansEnc.Keys - remaining
        invariant ClearedUpTo(s0, store, gk, done)
        decreases |remaining|
      {
        var idEnc :| idEnc in remaining;
        DecodeThenEncode(idEnc);
        var userKey := UserKey(prefix, DecodeId(idEnc) as Id);
        ClearStep(s0, store, gk, done, idEnc);
        store := store.SRem(userKey, gk);
        remaining := remaining - {idEnc};
        done := done + {idEnc};
      }
      ClearGuildDone(s0, store, gk);
    }

    /** The commands of `clear_ban`'s transaction, in order. */
    function ClearBanTx(s: Store, guildId: Id, userId: Id): Store
    {
      var gk := GuildKey(prefix, guildId);
      s.HDel(gk, EncodeId(userId)).SRem(UserKey(prefix, userId), gk)
    }

    /**
     * What `clear_ban` leaves in the store: the guild's hash no longer lists
     * the user, the user's set no longer lists the guild, no other hash or set
     * changes, and only keys that still exist keep their time to live.
     */
    lemma ClearBanEffect(s: Store, guildId: Id, userId: Id)
      requires s.WellFormed()
      ensures var s', gk, uk := ClearBanTx(s, guildId, userId), GuildKey(prefix, guildId), UserKey(prefix, userId);
        && s'.HashAt(gk) == s.HashAt(gk) - {EncodeId(userId)}
        && s'.SetAt(uk) == s.SetAt(uk) - {gk}
        && (forall k :: k != gk ==> s'.HashAt(k) == s.HashAt(k))
        && (forall k :: k != uk ==> s'.SetAt(k) == s.SetAt(k))
        && s'.TtlFrom(s)
    {
      var gk := GuildKey(prefix, guildId);
      var s1 := s.HDel(gk, EncodeId(userId));
      ClearBanTx(s, guildId, userId).TtlFromAfter(s, s1);
    }

    /** `clear_ban` keeps the store's shape, and keeps the indices in step. */
    lemma ClearBanKeepsValid(s: Store, guildId: Id, userId: Id)
      requires Shaped(s)
      ensures Shaped(ClearBanTx(s, guildId, userId))
      ensures var s' := ClearBanTx(s, guildId, userId);
        Linked(s.hashes, s.sets) ==> Linked(s'.hashes, s'.sets)
    {
      var gk := GuildKey(prefix, guildId);
      var f := EncodeId(userId);
      assert UserKey(prefix, userId) == FieldUserKey(f);
      var s1 := s.HDel(gk, f);
      HDelShaped(s, gk, f);
      SRemShaped(s1, FieldUserKey(f), gk);
      if Linked(s.hashes, s.sets) {
        LinkedAfterClearBan(s, ClearBanTx(s, guildId, userId), gk, f);
      }
    }

    /**
     * `clear_ban`: one transaction removes the user's field from the guild's
     * hash and the guild from the user's set.
     */
    method ClearBan(guildId: Id, userId: Id)
      requires Valid()
      modifies this
      ensures store == ClearBanTx(old(store), guildId, userId)
      ensures Valid()
      ensures old(InStep()) ==> InStep()
    {
      var gk := GuildKey(prefix, guildId);
      var uk := UserKey(prefix, userId);
      var idEnc := EncodeId(userId);
      ClearBanKeepsValid(store, guildId, userId);
      store := store.HDel(gk, idEnc).SRem(uk, gk);
    }

    lemma LinkedAfterClearBan(s: Store, s': Store, gk: Key, f: Key)
      requires Shaped(s) && Linked(s.hashes, s.sets)
      requires s'.HashAt(gk) == s.HashAt(gk) - {f}
      requires forall k :: k != gk ==> s'.HashAt(k) == s.HashAt(k)
      requires s'.SetAt(FieldUserKey(f)) == s.SetAt(FieldUserKey(f)) - {gk}
      requires forall k :: k != FieldUserKey(f) ==> s'.SetAt(k) == s.SetAt(k)
      ensures Linked(s'.hashes, s'.sets)
    {
      forall g, f' | g in s'.hashes && f' in s'.hashes[g] ensures FieldUserKey(f') in s'.sets && g in s'.sets[FieldUserKey(f')] {
        assert f' in s'.HashAt(g);
        assert f' in s.HashAt(g);
        assert g in s.SetAt(FieldUserKey(f'));
        FieldUserKeyInjective(f, f');
        assert g in s'.SetAt(FieldUserKey(f'));
      }
      forall u, g | u in s'.sets && g in s'.sets[u] ensures g in s'.hashes && |u| >= 2 && u[2..] in s'.hashes[g] {
        assert g in s'.SetAt(u);
        assert g in s.SetAt(u);
        assert u[2..] in s.HashAt(g);
        UserKeyShape(u);
        assert u[2..] in s'.HashAt(g);
      }
    }
  }
}
