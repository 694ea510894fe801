/**
 The canister's stored configuration: API keys and the principals allowed to manage them, over any run of upgrades
 and `updateApiKeys` calls. A message that traps is rolled back by the Internet Computer.
 */
module ApiKeys {
  import opened Common
  import opened RpcTypes
  import opened ParallelCall

  type ProviderId = u64
  type Principal = string

  /** The source's single string, in pieces. */
  const VALID_API_KEY_CHARS :=
    "0123456789" + "ABCDEFGHIJKLM" + "NOPQRTSUVWXYZ" + "abcdefghijklm" + "nopqrstuvwxyz" + "$-_.+!*"

  /** `validate_api_key`. All valid characters take one byte, so length in bytes is length in characters. */
  predicate ValidApiKey(key: string) {
    key != "" && |key| <= 200 && forall i :: 0 <= i < |key| ==> key[i] in VALID_API_KEY_CHARS
  }

  /** A letter, a digit, or one of seven marks. */
  predicate IsKeyCharacter(c: char) {
    'a' <= c <= 'z' || 'A' <= c <= 'Z' || '0' <= c <= '9' || c in "$-_.+!*"
  }

  /** 1 to 200 such characters. */
  predicate IsKey(key: string) {
    1 <= |key| <= 200 && forall i :: 0 <= i < |key| ==> IsKeyCharacter(key[i])
  }

  /** `n` characters in a row. */
  function Consecutive(first: char, n: nat): (s: string)
    requires first as int + n <= 128
    ensures |s| == n && forall i :: 0 <= i < n ==> s[i] as int == first as int + i
    decreases n
  {
    if n == 0 then "" else [first] + Consecutive((first as int + 1) as char, n - 1)
  }

  lemma ConsecutiveIff(first: char, n: nat, c: char)
    requires first as int + n <= 128
    ensures c in Consecutive(first, n) <==> first as int <= c as int < first as int + n
  {
    if first as int <= c as int < first as int + n {
      assert Consecutive(first, n)[c as int - first as int] == c;
    }
  }

  lemma Digits()
    ensures Consecutive('0', 10) == "0123456789"
  {
  }

  lemma CapitalsToM()
    ensures Consecutive('A', 13) == "ABCDEFGHIJKLM"
  {
  }

  lemma CapitalsFromN()
    ensures Consecutive('N', 5) + "TS" + Consecutive('U', 6) == "NOPQRTSUVWXYZ"
  {
    assert Consecutive('N', 5) == "NOPQR";
    assert Consecutive('U', 6) == "UVWXYZ";
  }

  lemma LettersToM()
    ensures Consecutive('a', 13) == "abcdefghijklm"
  {
  }

  lemma LettersFromN()
    ensures Consecutive('n', 13) == "nopqrstuvwxyz"
  {
  }

  lemma ValidCharacterIff(c: char)
    ensures c in VALID_API_KEY_CHARS <==> IsKeyCharacter(c)
  {
    Digits();
    CapitalsToM();
    CapitalsFromN();
    LettersToM();
    LettersFromN();
    ConsecutiveIff('0', 10, c);
    ConsecutiveIff('A', 13, c);
    ConsecutiveIff('N', 5, c);
    ConsecutiveIff('U', 6, c);
    ConsecutiveIff('a', 13, c);
    ConsecutiveIff('n', 13, c);
    assert c in "TS" <==> c == 'T' || c == 'S';
  }

  /** Exactly which keys are valid. */
  lemma ValidApiKeyIff(key: string)
    ensures ValidApiKey(key) <==> IsKey(key)
  {
    forall i | 0 <= i < |key| ensures key[i] in VALID_API_KEY_CHARS <==> IsKeyCharacter(key[i]) {
      ValidCharacterIff(key[i]);
    }
  }

  type KeyMap = map<ProviderId, string>

  /** One element of a batch: set a key, or remove it. */
  datatype Update = Update(id: ProviderId, key: Option<string>)

  function KeyOf(keys: KeyMap, id: ProviderId): Option<string> { if id in keys then Some(keys[id]) else None }

  /** Whether one element goes through: the provider exists and takes keys, and the key is well formed. */
  predicate Acceptable(table: ProviderTable, u: Update) {
    match FindById(table, u.id)
    case Some(p) => p.authenticated && (u.key.Some? ==> ValidApiKey(u.key.value))
    case None => false
  }

  /** The first entry of the table with this identifier needs a key. */
  ghost predicate NeedsKey(table: ProviderTable, id: ProviderId) {
    exists i :: 0 <= i < |table| && table[i].id == id && table[i].authenticated
                && forall j :: 0 <= j < i ==> table[j].id != id
  }

  /** The element names a provider that needs a key, and gives it a well-formed one or none. */
  ghost predicate IsProper(table: ProviderTable, u: Update) {
    NeedsKey(table, u.id) && (u.key.Some? ==> IsKey(u.key.value))
  }

  lemma {:induction false} FoundFirst(table: ProviderTable, id: ProviderId)
    ensures NeedsKey(table, id) <==> FindById(table, id).Some? && FindById(table, id).value.authenticated
  {
    if table != [] {
      FoundFirst(table[1..], id);
      if table[0].id != id {
        if i :| 0 <= i < |table| && table[i].id == id && table[i].authenticated
                && forall j :: 0 <= j < i ==> table[j].id != id {
          assert table[1..][i - 1] == table[i];
          assert forall j :: 0 <= j < i - 1 ==> table[1..][j] == table[j + 1];
        }
        if i :| 0 <= i < |table[1..]| && table[1..][i].id == id && table[1..][i].authenticated
                && forall j :: 0 <= j < i ==> table[1..][j].id != id {
          assert table[i + 1] == table[1..][i];
          assert forall j :: 1 <= j < i + 1 ==> table[j] == table[1..][j - 1];
        }
      } else {
        assert NeedsKey(table, id) <==> table[0].authenticated;
      }
    }
  }

  /** Exactly which elements go through. */
  lemma AcceptableIff(table: ProviderTable, u: Update)
    ensures Acceptable(table, u) <==> IsProper(table, u)
  {
    FoundFirst(table, u.id);
    if u.key.Some? {
      ValidApiKeyIff(u.key.value);
    }
  }

  function Write(keys: KeyMap, u: Update): KeyMap {
    match u.key
    case Some(key) => keys[u.id := key]
    case None => keys - {u.id}
  }

  /** The batch, element by element; `None` when an element traps. */
  function WriteAll(table: ProviderTable, keys: KeyMap, batch: seq<Update>): Option<KeyMap>
    decreases batch
  {
    if batch == [] then Some(keys)
    else if Acceptable(table, batch[0]) then WriteAll(table, Write(keys, batch[0]), batch[1..])
    else None
  }

  /** The last element of the batch that concerns `id`. */
  ghost function LastWrite(batch: seq<Update>, id: ProviderId): Option<Update> {
    if batch == [] then None
    else if batch[|batch| - 1].id == id then Some(batch[|batch| - 1])
    else LastWrite(batch[..|batch| - 1], id)
  }

  lemma {:induction false} LastWriteCons(batch: seq<Update>, id: ProviderId)
    requires batch != []
    ensures LastWrite(batch, id)
         == if LastWrite(batch[1..], id).Some? then LastWrite(batch[1..], id)
            else if batch[0].id == id then Some(batch[0]) else None
  {
    var last := batch[|batch| - 1];
    if |batch| > 1 && last.id != id {
      LastWriteCons(batch[..|batch| - 1], id);
      assert batch[..|batch| - 1][1..] == batch[1..][..|batch| - 2];
    }
  }

  /** Element `i` is about `id`, and none after it is. */
  ghost predicate IsLast(batch: seq<Update>, id: ProviderId, i: nat) {
    i < |batch| && batch[i].id == id && forall j :: i < j < |batch| ==> batch[j].id != id
  }

  lemma {:induction false} LastWriteIs(batch: seq<Update>, id: ProviderId, i: nat)
    requires IsLast(batch, id, i)
    ensures LastWrite(batch, id) == Some(batch[i])
  {
    if i < |batch| - 1 {
      LastWriteIs(batch[..|batch| - 1], id, i);
    }
  }

  lemma {:induction false} LastWriteNone(batch: seq<Update>, id: ProviderId)
    requires forall i :: 0 <= i < |batch| ==> batch[i].id != id
    ensures LastWrite(batch, id) == None
  {
    if batch != [] {
      LastWriteNone(batch[..|batch| - 1], id);
    }
  }

  /**
   A batch goes through exactly when each of its elements would, and then every provider's key is what the last
   element about it says, or what it was.
   */
  lemma {:induction false} BatchIsLastWriteWins(table: ProviderTable, keys: KeyMap, batch: seq<Update>, id: ProviderId)
    ensures WriteAll(table, keys, batch).Some? <==> forall u :: u in batch ==> Acceptable(table, u)
    ensures WriteAll(table, keys, batch).Some? ==>
      KeyOf(WriteAll(table, keys, batch).value, id)
      == match LastWrite(batch, id)
         case Some(u) => u.key
         case None => KeyOf(keys, id)
    decreases batch
  {
    if batch != [] {
      BatchIsLastWriteWins(table, Write(keys, batch[0]), batch[1..], id);
      LastWriteCons(batch, id);
      assert forall u :: u in batch <==> u == batch[0] || u in batch[1..];
    }
  }

  /**
   Installation arguments. `overrideProvider` holds the URL pattern to override with, if any; one that does not
   compile traps.
   */
  datatype InstallArgs = InstallArgs(
    demo: Option<bool>, manageApiKeys: Option<seq<Principal>>, logFilter: Option<string>,
    overrideProvider: Option<Option<string>>, nodesInSubnet: Option<nat>)

  datatype Message =
    | PostUpgrade(args: InstallArgs)
    | UpdateApiKeys(caller: Principal, isController: bool, batch: seq<Update>)

  /** `logFilter` is absent as long as the default applies. */
  datatype State = State(
    apiKeys: KeyMap, principals: seq<Principal>, demo: bool, logFilter: Option<string>, overrideUrl: Option<string>,
    nodesInSubnet: nat)

  const FRESH := State(map[], [], false, None, None, 34)

  /** What is fixed from outside: the provider table, and which URL patterns compile. */
  datatype Setting = Setting(table: ProviderTable, compiles: string -> bool)

  function GetOr<T>(o: Option<T>, default: T): T { if o.Some? then o.value else default }

  /** The given override does not compile. */
  predicate InvalidOverride(env: Setting, args: InstallArgs) {
    args.overrideProvider.Some? && args.overrideProvider.value.Some?
    && !env.compiles(args.overrideProvider.value.value)
  }

  /** What one message leaves stored. */
  function Handle(env: Setting, s: State, m: Message): State {
    match m
    case PostUpgrade(args) =>
      if InvalidOverride(env, args) then s
      else
        State(s.apiKeys, GetOr(args.manageApiKeys, s.principals), GetOr(args.demo, s.demo),
              if args.logFilter.Some? then args.logFilter else s.logFilter,
              GetOr(args.overrideProvider, s.overrideUrl), GetOr(args.nodesInSubnet, s.nodesInSubnet))
    case UpdateApiKeys(caller, isController, batch) =>
      if !(caller in s.principals || isController) then s
      else s.(apiKeys := GetOr(WriteAll(env.table, s.apiKeys, batch), s.apiKeys))
  }

  function Run(env: Setting, messages: seq<Message>): State {
    if messages == [] then FRESH
    else Handle(env, Run(env, messages[..|messages| - 1]), messages[|messages| - 1])
  }

  /** What `setting` the last upgrade that went through and gave one has set. */
  ghost function LastSet<T>(
      env: Setting, messages: seq<Message>, setting: InstallArgs -> Option<T>): Option<T>
  {
    if messages == [] then None
    else
      var front, last := messages[..|messages| - 1], messages[|messages| - 1];
      if last.PostUpgrade? && !InvalidOverride(env, last.args) && setting(last.args).Some? then setting(last.args)
      else LastSet(env, front, setting)
  }

  /** The principals last set. */
  ghost function LastPrincipals(env: Setting, messages: seq<Message>): seq<Principal> {
    GetOr(LastSet(env, messages, (args: InstallArgs) => args.manageApiKeys), [])
  }

  /** Every stored key is well formed and belongs to a provider that takes one. */
  ghost predicate KeysSound(table: ProviderTable, keys: KeyMap) {
    forall id :: id in keys ==> Acceptable(table, Update(id, Some(keys[id])))
  }

  lemma {:induction false} WriteAllSound(table: ProviderTable, keys: KeyMap, batch: seq<Update>)
    requires KeysSound(table, keys) && WriteAll(table, keys, batch).Some?
    ensures KeysSound(table, WriteAll(table, keys, batch).value)
    decreases batch
  {
    if batch != [] {
      WriteAllSound(table, Write(keys, batch[0]), batch[1..]);
    }
  }

  /**
   Over any run, stored keys are sound, the principals allowed to manage them are those last set, whatever upgrades
   and updates came since, and a stored override compiles: resolving a provider's URL later cannot fail on it.
   */
  lemma {:induction false} RunSound(env: Setting, messages: seq<Message>)
    ensures KeysSound(env.table, Run(env, messages).apiKeys)
    ensures Run(env, messages).principals == LastPrincipals(env, messages)
    ensures Run(env, messages).overrideUrl.Some? ==> env.compiles(Run(env, messages).overrideUrl.value)
  {
    if messages != [] {
      var before, m := Run(env, messages[..|messages| - 1]), messages[|messages| - 1];
      RunSound(env, messages[..|messages| - 1]);
      if m.UpdateApiKeys? && WriteAll(env.table, before.apiKeys, m.batch).Some? {
        WriteAllSound(env.table, before.apiKeys, m.batch);
      }
    }
  }

  /**
   Over any run, whatever is stored for an identifier is a well-formed key, and the identifier is that of a provider in
   the table that needs one.
   */
  lemma StoredKeysSound(env: Setting, messages: seq<Message>, id: ProviderId)
    requires id in Run(env, messages).apiKeys
    ensures exists p :: p in env.table && p.id == id && p.authenticated
    ensures IsKey(Run(env, messages).apiKeys[id])
  {
    RunSound(env, messages);
    AcceptableIff(env.table, Update(id, Some(Run(env, messages).apiKeys[id])));
    var i :| 0 <= i < |env.table| && env.table[i].id == id && env.table[i].authenticated;
    assert env.table[i] in env.table;
  }

  /**
   Exactly when a batch changes anything at all: its caller is a controller or was last set as a manager, and every
   element is proper. Then each key is what the last element about it says; otherwise all keys stay.
   */
  lemma BatchEffect(env: Setting, messages: seq<Message>, caller: Principal, isController: bool, batch: seq<Update>,
                    id: ProviderId)
    ensures
      var before := Run(env, messages).apiKeys;
      var after := Run(env, messages + [UpdateApiKeys(caller, isController, batch)]).apiKeys;
      if (isController || caller in LastPrincipals(env, messages)) && forall u :: u in batch ==> IsProper(env.table, u)
      then KeyOf(after, id) == match LastWrite(batch, id) case Some(u) => u.key case None => KeyOf(before, id)
      else after == before
  {
    var m := UpdateApiKeys(caller, isController, batch);
    assert (messages + [m])[..|messages|] == messages;
    RunSound(env, messages);
    BatchIsLastWriteWins(env.table, Run(env, messages).apiKeys, batch, id);
    forall u | u in batch ensures Acceptable(env.table, u) <==> IsProper(env.table, u) {
      AcceptableIff(env.table, u);
    }
  }

  /** Each setting is independent: it is what the last upgrade that gave it has set, or its default. */
  lemma {:induction false} SettingsAreLastSet(env: Setting, messages: seq<Message>)
    ensures
      var s := Run(env, messages);
      && s.demo == GetOr(LastSet(env, messages, (args: InstallArgs) => args.demo), false)
      && s.logFilter == LastSet(env, messages, (args: InstallArgs) => args.logFilter)
      && s.overrideUrl == GetOr(LastSet(env, messages, (args: InstallArgs) => args.overrideProvider), None)
      && s.nodesInSubnet == GetOr(LastSet(env, messages, (args: InstallArgs) => args.nodesInSubnet), 34)
  {
    if messages != [] {
      SettingsAreLastSet(env, messages[..|messages| - 1]);
    }
  }

  /**
   A key changes only by a batch of an authorised caller that goes through as a whole: any other message leaves all
   keys as they were.
   */
  lemma KeysChangeOnlyByAuthorisedBatch(env: Setting, messages: seq<Message>, m: Message, id: ProviderId)
    requires KeyOf(Run(env, messages + [m]).apiKeys, id) != KeyOf(Run(env, messages).apiKeys, id)
    ensures m.UpdateApiKeys?
    ensures m.isController || m.caller in LastPrincipals(env, messages)
    ensures forall u :: u in m.batch ==> Acceptable(env.table, u)
    ensures LastWrite(m.batch, id).Some?
    ensures KeyOf(Run(env, messages + [m]).apiKeys, id) == LastWrite(m.batch, id).value.key
  {
    assert (messages + [m])[..|messages|] == messages;
    RunSound(env, messages);
    if m.UpdateApiKeys? {
      BatchIsLastWriteWins(env.table, Run(env, messages).apiKeys, m.batch, id);
    }
  }

  /** The stored state, updated in place. */
  class Canister {
    var apiKeys: KeyMap
    var principals: seq<Principal>
    var demo: bool
    var logFilter: Option<string>
    var overrideUrl: Option<string>
    var nodesInSubnet: nat

    ghost function Stored(): State
      reads this
    {
      State(apiKeys, principals, demo, logFilter, overrideUrl, nodesInSubnet)
    }

    constructor ()
      ensures Stored() == FRESH
    {
      apiKeys, principals, demo, logFilter, overrideUrl, nodesInSubnet := map[], [], false, None, None, 34;
    }

    /** `set_api_key_principals`: the stored vector is emptied from its end and refilled. */
    method SetApiKeyPrincipals(newPrincipals: seq<Principal>)
      modifies this`principals
      ensures principals == newPrincipals
    {
      while principals != []
        decreases |principals|
      {
        principals := principals[..|principals| - 1];
      }
      for i := 0 to |newPrincipals|
        invariant principals == newPrincipals[..i]
      {
        principals := principals + [newPrincipals[i]];
      }
    }

    method HandlePostUpgrade(env: Setting, args: InstallArgs) returns (trapped: bool)
      modifies this
      ensures trapped <==>
        args.overrideProvider.Some? && args.overrideProvider.value.Some?
        && !env.compiles(args.overrideProvider.value.value)
      ensures Stored() == Handle(env, old(Stored()), PostUpgrade(args))
    {
      var before := (demo, principals, logFilter);
      if args.demo.Some? {
        demo := args.demo.value;
      }
      if args.manageApiKeys.Some? {
        SetApiKeyPrincipals(args.manageApiKeys.value);
      }
      if args.logFilter.Some? {
        logFilter := args.logFilter;
      }
      if args.overrideProvider.Some? {
        var url := args.overrideProvider.value;
        if url.Some? && !env.compiles(url.value) {
          demo, principals, logFilter := before.0, before.1, before.2;  // the trap rolls back
          return true;
        }
        overrideUrl := url;
      }
      if args.nodesInSubnet.Some? {
        nodesInSubnet := args.nodesInSubnet.value;
      }
      return false;
    }

    method HandleUpdateApiKeys(env: Setting, caller: Principal, isController: bool, batch: seq<Update>)
        returns (accepted: bool)
      modifies this`apiKeys
      ensures accepted <==>
        (caller in principals || isController) && forall u :: u in batch ==> IsProper(env.table, u)
      ensures Stored() == Handle(env, old(Stored()), UpdateApiKeys(caller, isController, batch))
    {
      BatchIsLastWriteWins(env.table, apiKeys, batch, 0);
      forall u | u in batch ensures Acceptable(env.table, u) <==> IsProper(env.table, u) {
        AcceptableIff(env.table, u);
      }
      if !(caller in principals || isController) {
        return false;
      }
      var before := apiKeys;
      for i := 0 to |batch|
        invariant WriteAll(env.table, apiKeys, batch[i..]) == WriteAll(env.table, before, batch)
      {
        assert batch[i..][0] == batch[i] && batch[i..][1..] == batch[i + 1..];
        if !Acceptable(env.table, batch[i]) {
          apiKeys := before;  // the trap rolls back
          return false;
        }
        match batch[i].key {
          case Some(key) => apiKeys := apiKeys[batch[i].id := key];
          case None => apiKeys := apiKeys - {batch[i].id};
        }
      }
      return true;
    }
  }
}
