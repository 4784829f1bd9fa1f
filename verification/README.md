# Hourai core logic in Dafny

This project models four pieces of logic from the Hourai Discord bot. Each one sits underneath the bot's chat and storage plumbing.

- **Join validation** (`hourai/extensions/validation/__init__.py`):
  - The decision fold of `_validate_member`. An ordered chain of validators yields rejection and approval reasons, and the last reason decides the verdict.
  - The batching helper `_chunk_iter`.
  - The candidate selection of the `purge_unverified` loop, with `_is_kickable` and `PURGE_LOOKBACK` (six hours).
- **The ban cache** (`base/hourai/db/bans.py`):
  - `BanStorage` keeps every ban the bot sees under two indices of a keyed store. Per guild, a hash maps each user's encoded id to the ban record. Per user, a set holds the guild keys that banned that user.
  - Each transaction of the source is one method of the `BanStorage` class. The method's new store is given by a transition function. Lemmas prove what that function does to both indices, and that it keeps them in step (the `Linked` predicate).
- **The storage layer** (`base/hourai/db/storage.py`):
  - `_prefixize`, the `StoragePrefix` and `GuildPrefix` tables, and the cache-config table `_get_cache_configs`.
  - The cache wiring of `__setup_caches`: key-coder choice, store choice and the aggregate mapping.
  - The connection back-off of `_connect_to_redis`.
  - The session exit `__exit__` and the attribute fallback `__getattr__`.
- **Custom commands** (`src/Standard/Commands.cs`):
  - `CreateCommand` creates, updates or deletes a command in a guild's collection.
  - `CommandDump` shows one command.

Files:

- `wrappers.dfy`: `Option` and `Result`. `Result.Raised` carries the name of a Python exception.
- `seqs.dfy`: `Flatten` and small sequence facts.
- `coders.dfy`: a stand-in for the integer key coder. It writes an identifier as eight big-endian bytes, and its round trip is proved.
- `validation.dfy`, `bans.dfy`, `storage.dfy`, `commands.dfy`: one module per core source file.

The keyed store follows Redis semantics:

- `HSET` and `HMSET` merge into an existing hash.
- A hash or set that becomes empty disappears, together with its expiry.
- `EXPIRE` affects only existing keys.
- Reading a missing key gives an empty hash or set.

## Model

| member | source | states |
|---|---|---|
| Validation.ValidateMember | hourai/extensions/validation/__init__.py:129-148 | The loop over the validator chain returns the verdict of the last non-None reason (approved when there is none). It returns every rejection and approval text in emission order. It equals the fold `Aggregate` |
| Validation.FoldRejectionsIsFold | hourai/extensions/validation/__init__.py:135-139 | Draining rejection reasons skips None and, for each text, appends it and sets approval false |
| Validation.FoldApprovalsIsFold | hourai/extensions/validation/__init__.py:140-144 | Draining approval reasons skips None and, for each text, appends it and sets approval true |
| Validation.ChainIsFold | hourai/extensions/validation/__init__.py:133-147 | Running the chain validator by validator is one fold over the signals of all validators in order |
| Validation.FoldShape | hourai/extensions/validation/__init__.py:130-148 | After a fold, both lists are the old lists plus the new texts in order. The flag is the kind of the last signal, or unchanged when there is none |
| Validation.AggregateShape | hourai/extensions/validation/__init__.py:130-148 | The decision is approved iff the last signal is an approval. The lists are the approval texts and rejection texts of all signals |
| Validation.NoReasonsApproves | hourai/extensions/validation/__init__.py:130-137 | When every reason is None, the result is approved with both lists empty |
| Validation.RejectionIsMet | hourai/extensions/validation/__init__.py:135-139 | A validator that yields a rejection text leaves a non-empty rejection list |
| Validation.LastReasonApproves | hourai/extensions/validation/__init__.py:140-144 | If a validator approves and no later one rejects, the last signal is an approval |
| Validation.LaterApprovalOverrides | hourai/extensions/validation/__init__.py:24-25 | A later approval overrides earlier rejections: the verdict is approved, and both reason lists are still returned non-empty |
| Validation.SwapRejectorsKeepsVerdict | hourai/extensions/validation/__init__.py:133-139 | Swapping two adjacent reject-only validators keeps the verdict and the approval list. The rejection list keeps the same multiset |
| Validation.FaultIsIsolated | hourai/extensions/validation/__init__.py:145-147 | A validator that raises contributes the reasons it yielded before raising. The validators before and after it contribute as usual |
| Validation.ChunkIter | hourai/extensions/validation/__init__.py:150-157 | The chunks concatenate to the source. Every chunk but the last is full. The last is shorter and possibly empty. There are exactly len / size + 1 chunks |
| Validation.SelectPurgeCandidates | hourai/extensions/validation/__init__.py:187-221 | The purge loop selects exactly `Candidates(configs, guilds, now - PURGE_LOOKBACK)` |
| Validation.KickableWithoutRoleIff | hourai/extensions/validation/__init__.py:194-203 | A member is selected from a roster iff it lacks the validation role, is neither a bot nor a booster, and joined at or before the check time |
| Validation.CandidateIff | hourai/extensions/validation/__init__.py:213-221 | A member is a candidate iff some propagated config's guild is known, has the role and lets the bot kick, and the member there lacks the role, is neither a bot nor a booster, and joined at least six hours ago |
| Validation.IsKickableAsWritten | hourai/extensions/validation/__init__.py:200-203 | The eager tuple raises exactly when `joined_at` is None. Otherwise it holds iff the member is not a bot and joined by the check time, whether boosting or not; for a non-booster that is the intended predicate |
| Validation.KickableAsWrittenAgrees | hourai/extensions/validation/__init__.py:200-203 | When every member without the role has a join time and is not boosting, the filter as written gives the intended selection |
| Validation.BoosterKickedAsWritten | hourai/extensions/validation/__init__.py:195-203 | A booster without the role who joined seven hours ago is kicked by the pass as written, but not by the intended selection |
| Validation.JoinedAtNoneAbortsPurge | hourai/extensions/validation/__init__.py:200-203 | A single member without a join time makes the pass as written raise, while the intended selection kicks the stale member |
| Validation.MissingGuildAbortsPurge | hourai/extensions/validation/__init__.py:213-215 | A config whose guild the bot is not in makes the pass as written raise, while the intended selection skips it |
| Coders.IdRoundTrip | base/hourai/db/bans.py:39 | Decoding an encoded identifier gives it back |
| Coders.FieldRoundTrip | base/hourai/db/bans.py:127-129 | Every eight-byte field decodes to an identifier that encodes back to the same field |
| Coders.EncodeIdInjective | base/hourai/db/bans.py:39 | Distinct identifiers have distinct encodings |
| Bans.KeysParse | base/hourai/db/bans.py:31-35 | A guild key starts with the prefix and byte 0, a user key with the prefix and byte 1, and in both the remaining bytes decode back to the id |
| Bans.KeySpacesDisjoint | base/hourai/db/bans.py:31-35 | No guild key equals a user key, whatever the prefixes and ids |
| Bans.KeysInjective | base/hourai/db/bans.py:31-35 | Guild keys, and user keys, are equal iff their ids are equal |
| Bans.GuildSize | base/hourai/db/bans.py:17-21 | The size is the member count minus the cached bots. It lies between count − cached and count, and equals the count iff no cached member is a bot |
| Bans.NoBotsIff | base/hourai/db/bans.py:20 | The bot count is zero iff no cached member is a bot |
| Bans.EncodeBan | base/hourai/db/bans.py:143-156 | The field is the encoded user id. The record carries the guild id, the guild size, the blocked flag and the user id. Avatar and reason are set exactly when present |
| Bans.BanEntries | base/hourai/db/bans.py:65-70 | The encoded bans, as a hash, have one field per banned user. Each value is that user's encoded ban. With distinct users there is one entry per ban |
| Bans.ChunkedFlatten | base/hourai/db/bans.py:69 | The chunks written with `hmset` concatenate to the encoded bans |
| Bans.BanStorage.constructor | base/hourai/db/bans.py:27-39 | A new ban storage keeps its prefix and timeout, and wraps the given store as it is. Given a store whose ban keys have the ban layout, it is valid |
| Bans.BanStorage.SaveBanEffect | base/hourai/db/bans.py:78-90 | `save_ban` sets the user's field in the guild hash to the ban's record, which names the guild and is flagged blocked iff the guild has an admin config with `source_bans` false. It adds the guild key to the user's set, leaves every other hash and set alone, and refreshes both expiries |
| Bans.BanStorage.SaveBanKeepsValid | base/hourai/db/bans.py:78-90 | `save_ban` keeps the store's key shapes and keeps the two indices in step |
| Bans.BanStorage.SaveBan | base/hourai/db/bans.py:78-90 | The method's new store is the `save_ban` transaction applied to the old one. It keeps the store valid and the indices in step |
| Bans.BanStorage.SaveBansWritesHash | base/hourai/db/bans.py:51-75 | Without ban permission, or with no bans, nothing changes. Otherwise the guild hash gains one entry per ban, across all 1024-entry chunks, and no other hash changes |
| Bans.BanStorage.SaveBansBlockedFlag | base/hourai/db/bans.py:45-66 | With ban permission, every ban is stored under its user's field, and the record names the guild and is flagged blocked iff the guild has an admin config with `source_bans` false |
| Bans.BanStorage.SaveBansAddsUsers | base/hourai/db/bans.py:71-75 | Every banned user's set gains the guild key and no other set changes. Exactly those sets and the guild hash get the timeout |
| Bans.BanStorage.SaveBansKeepsValid | base/hourai/db/bans.py:51-76 | `save_bans` keeps the key shapes and keeps the indices in step |
| Bans.BanStorage.WriteChunksEffect | base/hourai/db/bans.py:69-70 | The chunked `hmset` calls add the concatenated chunks to the guild hash and touch nothing else |
| Bans.BanStorage.AddToUsersSets | base/hourai/db/bans.py:71-74 | The per-ban `sadd` adds the guild key to exactly the listed user sets |
| Bans.BanStorage.AddToUsersTtl | base/hourai/db/bans.py:71-74 | The per-ban `expire` gives exactly the listed user keys the timeout |
| Bans.BanStorage.SaveBans | base/hourai/db/bans.py:51-76 | The method's new store is the `save_bans` transaction applied to the old one. It keeps the store valid and the indices in step |
| Bans.BanStorage.WriteBatches | base/hourai/db/bans.py:69-70 | The loop over chunks leaves the store the chunk writes describe |
| Bans.BanStorage.AddToUserSets | base/hourai/db/bans.py:71-74 | The loop over bans leaves the store the per-user writes describe |
| Bans.BanStorage.GetGuildBans | base/hourai/db/bans.py:92-100 | The result lists the guild hash's values, one per field: position i holds the value of field i of a listing that names every field exactly once. An absent hash gives the empty list |
| Bans.BanStorage.GetUserBans | base/hourai/db/bans.py:102-116 | The result lists the user's record from each listed guild whose hash still holds the user, one per such guild: position i holds the record of guild i of a listing that names each such guild exactly once. Others are skipped. An empty or absent set gives the empty list |
| Bans.BanStorage.InStepAllLive | base/hourai/db/bans.py:102-116 | When the indices are in step, every guild in the user's set still holds the user |
| Bans.BanStorage.ClearGuild | base/hourai/db/bans.py:118-131 | The guild hash is deleted. Every user listed in it loses the guild key. Nothing else changes. An absent hash leaves the store unchanged |
| Bans.BanStorage.ClearGuildDone | base/hourai/db/bans.py:125-130 | After the delete and one `srem` per listed user, the store is as `clear_guild` promises and the indices stay in step |
| Bans.BanStorage.DecodeThenEncode | base/hourai/db/bans.py:127-129 | Decoding a field and re-encoding it as a user key gives the user key of that field |
| Bans.BanStorage.ClearBanEffect | base/hourai/db/bans.py:133-141 | `clear_ban` removes one hash field and one set membership. Every other hash and set is unchanged |
| Bans.BanStorage.ClearBanKeepsValid | base/hourai/db/bans.py:133-141 | `clear_ban` keeps the key shapes and keeps the indices in step |
| Bans.BanStorage.ClearBan | base/hourai/db/bans.py:133-141 | The method's new store is the `clear_ban` transaction applied to the old one. It keeps the store valid and the indices in step |
| Storage.PrefixizeIdempotent | base/hourai/db/storage.py:53-56 | Prefixing an already prefixed value changes nothing |
| Storage.PrefixizeInjective | base/hourai/db/storage.py:53-56 | Distinct byte values give distinct prefixes, and the byte is the value |
| Storage.StoragePrefixesDistinct | base/hourai/db/storage.py:25-32 | The top-level prefixes are distinct values that fit in one byte |
| Storage.GuildPrefixesEnumerate | base/hourai/db/storage.py:35-50 | The guild prefixes are listed once each, in declaration order, with subprefixes 0..6 |
| Storage.GuildPrefixNamed | base/hourai/db/storage.py:35-50 | Looking a guild prefix up by name gives the member of that name, or `AttributeError` when none has it |
| Storage.GetCacheConfigs | base/hourai/db/storage.py:165-171 | There is one config per guild prefix |
| Storage.CacheConfigsShape | base/hourai/db/storage.py:166-171 | Config i has `attr` = lower-cased name + "s", `prefix` = GUILD_CONFIGS, and the prefix's own subprefix and proto type |
| Storage.AttrsDistinct | base/hourai/db/storage.py:168 | No two configs share an attribute name |
| Storage.CacheForStoreChoice | base/hourai/db/storage.py:129-148 | Without a subprefix, a plain store keyed by the prefixed int coder. With a subprefix, a hash store keyed by the pair (prefixed int, constant subprefix byte). An out-of-range subprefix raises `ValueError`. The value coder is the config's factory's coder, or its message type's, compressed |
| Storage.ConfigCachesBuild | base/hourai/db/storage.py:127-149 | Every config builds a hash-store cache with timeout 0, key (guild-configs prefix, subprefix i), and the compressed protobuf value coder |
| Storage.ConfigKeysDistinct | base/hourai/db/storage.py:127-149 | Distinct configs have distinct key coders |
| Storage.SetAttrsLookup | base/hourai/db/storage.py:127-149 | After the loop, each config's attribute holds its built cache. Attributes no config names keep their values |
| Storage.SetupLookup | base/hourai/db/storage.py:127-149 | For the real config table, each attribute holds its config's cache |
| Storage.StripConfigs | base/hourai/db/storage.py:159-160 | `"_configs"` is found in `x + "_configs"`, and removing it gives `x` back |
| Storage.AggregateNameOf | base/hourai/db/storage.py:158-160 | A config's aggregate name is its lower-cased stem (for example `auto` for `AUTO_CONFIG`) |
| Storage.AggregateNames | base/hourai/db/storage.py:153-163 | The mapping has one entry per GUILD_CONFIGS config, in order, pairing the stripped name with that attribute's cache |
| Storage.AggregatePrefix | base/hourai/db/storage.py:153-161 | The first n mapping entries pair each config's stripped name with its cache |
| Storage.Storage.constructor | base/hourai/db/storage.py:64-71 | Every config's attribute starts out as None |
| Storage.Storage.SetupCaches | base/hourai/db/storage.py:118-163 | Caches are set up: a fresh, valid ban storage over the given store with prefix 2 and timeout 300; the music-state cache on a plain store without timeout, with the compressed music-bot-state value coder; each config's attribute set to its cache; the aggregate mapping built from those attributes |
| Storage.Storage.SetConfigCaches | base/hourai/db/storage.py:127-149 | The `setattr` loop leaves the attributes the fold `SetAttrs` describes |
| Storage.Storage.AggregateMapping | base/hourai/db/storage.py:153-161 | The mapping loop returns `Aggregate` of the configs and attributes |
| Storage.WaitBound | base/hourai/db/storage.py:111 | A wait of 2^k reaches the 60-second cap exactly from the seventh attempt (k ≥ 6) |
| Storage.BackoffDoubles | base/hourai/db/storage.py:102-116 | The k-th sleep is 2^k seconds |
| Storage.BackoffSum | base/hourai/db/storage.py:115 | The first n sleeps total 2^n − 1 seconds |
| Storage.RetryBudget | base/hourai/db/storage.py:101-116 | 32 < 60 ≤ 64, and the six sleeps total 63 seconds |
| Storage.ConnectToRedis | base/hourai/db/storage.py:101-116 | At most six sleeps, of 1, 2, 4, … seconds, each after a `ReplyError` and each below the cap. Success returns the attempt number. A `ReplyError` that reaches the cap is re-raised after six sleeps. Any other error propagates at once |
| Storage.MusicStatesAsWrittenRaises | base/hourai/db/storage.py:123 | Looking up `GuildPrefix.MUSIC_STATES` raises `AttributeError`: no guild prefix has that name |
| Storage.MusicValueCoderAsWrittenRaises | base/hourai/db/storage.py:124 | `.compressed()` on what `protobuf` returns raises `AttributeError`: it is a function, not a coder |
| Storage.MusicValueCoderBuilds | base/hourai/db/storage.py:21-22 | Calling the factory `protobuf` returns, then compressing, gives the compressed music-bot-state coder |
| Storage.MusicValueCoderLikeConfigs | base/hourai/db/storage.py:131-132 | The intended music-state value coder is the one the config loop builds for a config of the same message type |
| Storage.MusicStatesPrefix | base/hourai/db/storage.py:30 | The music-state key is the one-byte MUSIC_STATES top-level prefix, distinct from the other top-level prefixes |
| Storage.ExitCallsShape | base/hourai/db/storage.py:214-219 | Exit commits iff no exception, rolls back iff one, and always closes last, unless the commit or rollback itself raised |
| Storage.StorageSession.Exit | base/hourai/db/storage.py:214-219 | The DB session receives exactly those calls. The exit raises exactly when the commit or rollback raises, with that exception, and then the session is not closed |
| Storage.ResolveFirstHit | base/hourai/db/storage.py:224-230 | The lookup raises `AttributeError` iff no subitem has the attribute. Otherwise it returns the value from the first subitem that has it |
| Storage.GetAttr | base/hourai/db/storage.py:224-230 | Over (DB session, storage): the DB session's value when it has the attribute, else storage's, else `AttributeError` |
| Commands.IndexOf | src/Standard/Commands.cs:25 | The lookup finds a command of that name, or none exists |
| Commands.CreateThenLookup | src/Standard/Commands.cs:23-52 | After a non-empty response the command answers with that response. After an empty one no command of that name remains. Names stay distinct |
| Commands.CreateKeepsOthers | src/Standard/Commands.cs:23-52 | Creating, updating or deleting one command leaves every other command's lookup unchanged |
| Commands.CreateCommandCount | src/Standard/Commands.cs:26-49 | Creating adds exactly one entry. Deleting removes exactly one. Updating, or deleting an absent command, keeps the count |
| Commands.Guild.CreateCommand | src/Standard/Commands.cs:23-52 | The collection and reply follow the four cases: delete-absent (unchanged, "does not exist"), delete (removed), create (appended, "created"), update (response replaced, "updated"). Names stay distinct |
| Commands.Guild.CommandDump | src/Standard/Commands.cs:56-62 | "No custom command named X" when absent. Otherwise "name: response" of the command found |
| Commands.DumpAfterCreate | src/Standard/Commands.cs:56-62 | After a command is given a non-empty response, dumping it shows exactly that response |
| Commands.DumpAfterDelete | src/Standard/Commands.cs:56-62 | After a command is deleted, dumping it says there is none |

## Left out

**Validation**

- The concrete validator classes are not part of this model. A validator is the sequence of reasons each of its two generators yields (text or None), plus where it raised.
- Exceptions are swallowed after `traceback.print_exc()`; that printing is not modelled.
- `_kick_member`, the DM, `request_offline_members` and `asyncio.gather` are left out. The purge model stops at the list of members to kick.
- Guild rosters, roles and the kick permission are inputs.
- A member boosts the guild when `premium_since` is set; the model takes that as the flag `boosting`.
- Times are whole seconds, and `datetime.utcnow()` is a parameter.
- `utils.all_without_roles` is not part of this model. It is taken to keep members lacking the role, in roster order.
- The other cog members (`reload_bans`, `on_member_join`, `on_member_ban`, `report_bans`, the setup, propagate and lockdown commands) are left out: they are chat plumbing.
- Validation.ChunkIter: for a chunk size below 1 the source yields every element as its own chunk, then a final empty one. The model gives that case width 1, which describes the same chunks.

**Ban cache**

- The value codec (protobuf, then compression) is the identity. A hash value is the `BanInfo` record itself.
- The external `IntCoder` is replaced by a fixed eight-byte big-endian stand-in. Only its round trip and injectivity are used.
- `iterable.chunked` is not part of this model. Its stand-in `Bans.Chunked` cuts 1024-entry chunks, and only its flattening property is used.
- The chat client's data (`guild.bans()`, the bot's ban permission, the cached members) are parameters.
- The relational admin-config query in `is_guild_blocked` is a map from guild id to config.
- Redis networking and `redis_transaction` are left out. Each transaction is one atomic update.
- Expiry times are a map from key to seconds. Keys actually expiring is not modelled. That is the one way the indices can fall out of step, which is why `InStep` is a separate predicate from `Valid`.
- Bans.BanStorage.GetGuildBans: returns records in an order the model leaves open, as Redis does for `HGETALL`.
- Bans.BanStorage.GetUserBans: returns records in an order the model leaves open, as Redis does for `SMEMBERS`.
- Bans.BanStorage.constructor: requires the ban keys of the store it wraps to have the ban layout (`ShapedUnder`). The source cannot check that; it relies on nothing else writing under the ban prefix.

**Storage**

- `init`, `_init_sql_database`, `_init_redis`, `close`, `ensure_created`, `_create_sql_engine`, `execute_query` and the executor are SQL, Redis and thread-pool plumbing, and are left out.
- Coders, stores and caches are values that record how they were built, not runnable codecs.
- A config's `value_coder` override, when present, is the coder its factory makes. The configs set none.
- Storage.Prefixize: Python's `bool` is an `int`, so `True`/`False` would become `b'\x01'`/`b'\x00'`. No bool reaches it, and the model has no bool case.
- Storage.ConnectToRedis: `wait_time` is a float in the source. Powers of two below 64 are exact, so the model uses integers.
- Storage.ConnectToRedis: the connection attempt is a parameter giving the outcome of attempt k, and sleeping is returned as the list of waits.
- Storage.Storage.SetupCaches: the source's music-state cache raises before it is built, twice over (see Findings). The model builds it with the key and the value coder the code evidently intends.
- Storage.Storage.SetupCaches: the Redis connection is a parameter, the store the ban storage wraps.
- Storage.Storage.SetupCaches: the key is passed as raw bytes, as in the source, and `local_cache_size=0` is not recorded.
- Storage.StorageSession.Exit: `exc` is a flag, and a commit or rollback that raises is given as a parameter. A `close()` that raises is not modelled.
- Storage.GetAttr: Python consults `__getattr__` only after the session's own slots (`storage`, `db_session`, `redis`, `subitems`) and the `executor` property. Those are not part of the modelled lookup.

**Custom commands**

- The database save, the database context's own `Commands.Remove` and the chat replies are left out. A reply is its text.
- `GetCustomCommand` is not part of this model. It is taken to be an exact-name lookup.
- `string.Code()` is not part of this model. It is taken to wrap the name in backticks.
- The command's rate limit, minimum-role precondition and `CommandRole` are left out.

## Findings

| source | as written | input that shows it | evidently intended | confidence | as-written member | corrected member |
|---|---|---|---|---|---|---|
| hourai/extensions/validation/__init__.py:200-203 | The tuple of checks is built eagerly, so `member.joined_at <= check_time` is evaluated even when `joined_at` is None. That raises a TypeError, and the purge pass ends before any kick | A propagated guild with an unverified member whose `joined_at` is None, next to a member who joined seven hours ago | Members with an unknown join time are skipped, and the others are still purged | not executed | Validation.JoinedAtNoneAbortsPurge | Validation.SelectPurgeCandidates |
| hourai/extensions/validation/__init__.py:213-214 | `bot.get_guild` gives None for a guild the bot has left, and `guild.get_role` on None raises an AttributeError that ends the pass | Two propagated configs, the first for a guild the bot is not in | Configs whose guild is unknown are skipped | not executed | Validation.MissingGuildAbortsPurge | Validation.SelectPurgeCandidates |
| base/hourai/db/storage.py:123 | `GuildPrefix.MUSIC_STATES` does not exist (MUSIC_STATES is a `StoragePrefix`), so setting up the caches raises AttributeError | Any call to `__setup_caches` | The music-state key is the MUSIC_STATES top-level prefix byte | not executed | Storage.MusicStatesAsWrittenRaises | Storage.MusicStatesPrefix |
| base/hourai/db/storage.py:124 | `protobuf(proto.MusicBotState)` returns a function (lines 21-22), and `.compressed()` on it raises AttributeError; line 131 calls the factory first | Any call to `__setup_caches`, once line 123 is fixed | The value coder is the compressed music-bot-state coder, built as at line 131 | not executed | Storage.MusicValueCoderAsWrittenRaises | Storage.MusicValueCoderBuilds |
| hourai/extensions/validation/__init__.py:200-202 | The comment above the checks lists Nitro Boosters as never kicked, but no check looks at boosting | A booster without the validation role who joined seven hours ago | Boosters are never kicked | not executed | Validation.BoosterKickedAsWritten | Validation.CandidateIff |
