/** The monitor's settings (`Config`): a dictionary of JSON values kept in
    memory, loaded from the file `sys.dat` of the data directory with every
    stored key laid over the built-in defaults, read with the default as a
    fallback, and written back after every change. The SHA-256 digest that
    guards the admin panel is a parameter (`hash`: text to its hex digest). */
module Settings {
  import opened Common
  import opened JsonCodec
  import opened Storage

  /** `CONFIG_FILE`, inside the data directory. */
  const ConfigFile := "sys.dat"

  /** `sha256("admin123").hexdigest()`, the digest the defaults hold. */
  const DefaultPasswordHash := "240be518fabd2724ddb6f04eeb1da5967448d7e831c08c8fa822809f74c720a9"

  /** `DEFAULT_CONFIG`, in its order. */
  const Defaults: seq<Member> := [
    Member("work_start_hour", JInt(9)),
    Member("work_start_minute", JInt(0)),
    Member("work_end_hour", JInt(17)),
    Member("work_end_minute", JInt(0)),
    Member("screenshot_interval_minutes", JInt(3)),
    Member("idle_start_seconds", JInt(300)),
    Member("warning_screen_seconds", JInt(360)),
    Member("admin_password_hash", JStr(DefaultPasswordHash)),
    Member("screenshot_retention_days", JInt(14)),
    Member("anticheat_enabled", JBool(true)),
    Member("min_movement_distance", JInt(50)),
    Member("jitter_detection_window", JInt(30)),
    Member("max_jitter_regularity", JDec(85, 2)),
    Member("require_keyboard_activity", JBool(true)),
    Member("keyboard_check_interval", JInt(300)),
    Member("require_window_changes", JBool(true)),
    Member("window_change_interval", JInt(600)),
    Member("email_enabled", JBool(false)),
    Member("email_to", JStr("")),
    Member("email_from", JStr("")),
    Member("smtp_server", JStr("smtp.gmail.com")),
    Member("smtp_port", JInt(587)),
    Member("smtp_username", JStr("")),
    Member("smtp_password", JStr("")),
    Member("smtp_use_tls", JBool(true)),
    Member("dashboard_server_enabled", JBool(false)),
    Member("dashboard_port", JInt(8080)),
    Member("autostart_enabled", JBool(true))
  ]

  // ---------------------------------------------------------------- dictionary updates

  /** The members with `key` given the value `v`, each in its place. */
  function Replace(d: seq<Member>, key: string, v: Json): (r: seq<Member>)
    ensures |r| == |d|
    ensures forall i :: 0 <= i < |d| ==> r[i].key == d[i].key
  {
    if d == [] then []
    else
      var last := d[|d| - 1];
      Replace(d[..|d| - 1], key, v) + [if last.key == key then Member(key, v) else last]
  }

  /** `d[key] = v`: an existing key keeps its place and takes the new value,
      a new key goes at the end. */
  function Put(d: seq<Member>, key: string, v: Json): seq<Member>
  {
    if Lookup(d, key).Some? then Replace(d, key, v) else d + [Member(key, v)]
  }

  lemma {:induction false} ReplaceLookup(d: seq<Member>, key: string, v: Json, k: string)
    ensures Lookup(Replace(d, key, v), k) == if k == key && Lookup(d, key).Some? then Some(v) else Lookup(d, k)
  {
    if d != [] {
      var init, last := d[..|d| - 1], d[|d| - 1];
      ReplaceLookup(init, key, v, k);
      var r := Replace(d, key, v);
      assert r[..|r| - 1] == Replace(init, key, v);
      if k == key && last.key != key && Lookup(init, key).None? {
        assert Lookup(d, key).None?;
      }
    }
  }

  /** After `d[key] = v`, `key` reads `v` and every other key reads as before. */
  lemma PutLookup(d: seq<Member>, key: string, v: Json, k: string)
    ensures Lookup(Put(d, key, v), k) == if k == key then Some(v) else Lookup(d, k)
  {
    if Lookup(d, key).Some? {
      ReplaceLookup(d, key, v, k);
    } else {
      assert (d + [Member(key, v)])[..|d|] == d;
    }
  }

  /** `{**base, **over}`: the members of `over`, in order, assigned into a
      copy of `base`. */
  function Merge(base: seq<Member>, over: seq<Member>): seq<Member>
  {
    if over == [] then base
    else
      var last := over[|over| - 1];
      Put(Merge(base, over[..|over| - 1]), last.key, last.value)
  }

  /** A merged key reads as `over` has it, and as `base` has it where `over`
      does not have it. */
  lemma {:induction false} MergeLookup(base: seq<Member>, over: seq<Member>, k: string)
    ensures Lookup(Merge(base, over), k) == if Lookup(over, k).Some? then Lookup(over, k) else Lookup(base, k)
  {
    if over != [] {
      var init, last := over[..|over| - 1], over[|over| - 1];
      MergeLookup(base, init, k);
      PutLookup(Merge(base, init), last.key, last.value, k);
    }
  }

  // ---------------------------------------------------------------- load, get

  /** `load`: no file, an undecodable file or a falsy record give a copy of
      the defaults; a non-empty object is laid over them; any other truthy
      record makes the merge raise (None). */
  function LoadConfig(store: Store): (r: Option<seq<Member>>)
    ensures ConfigFile !in store ==> r == Some(Defaults)
  {
    if ConfigFile !in store then Some(Defaults)
    else
      match DecodeData(store[ConfigFile])
      case None => Some(Defaults)
      case Some(loaded) =>
        if !Truthy(loaded) then Some(Defaults)
        else if loaded.JObj? then Some(Merge(Defaults, loaded.members))
        else None
  }

  /** `get(key)`: the stored value, else the default, else `None`
      (JSON null here). */
  function Setting(config: seq<Member>, key: string): (r: Json)
    ensures Lookup(config, key).Some? ==> r == Lookup(config, key).value
    ensures Lookup(config, key).None? && Lookup(Defaults, key).Some? ==> r == Lookup(Defaults, key).value
    ensures Lookup(config, key).None? && Lookup(Defaults, key).None? ==> r == JNull
  {
    match Lookup(config, key)
    case Some(v) => v
    case None => if Lookup(Defaults, key).Some? then Lookup(Defaults, key).value else JNull
  }

  /** Whatever a loaded configuration holds, every setting reads as the
      stored record has it, and as the defaults have it otherwise. */
  lemma LoadedSetting(store: Store, key: string)
    requires ConfigFile in store && DecodeData(store[ConfigFile]).Some?
    requires var v := DecodeData(store[ConfigFile]).value; Truthy(v) && v.JObj?
    ensures var stored := DecodeData(store[ConfigFile]).value.members;
            LoadConfig(store).Some? &&
            Setting(LoadConfig(store).value, key)
            == if Lookup(stored, key).Some? then Lookup(stored, key).value else Setting(Defaults, key)
  {
    var stored := DecodeData(store[ConfigFile]).value.members;
    MergeLookup(Defaults, stored, key);
  }

  /** Writing a configuration and loading it again gives back every setting
      as it was (an empty one is falsy and loads as the defaults, which is
      what every lookup in it falls back to). */
  lemma SaveLoad(store: Store, config: seq<Member>, key: string)
    ensures var reloaded := LoadConfig(store[ConfigFile := EncodeData(JObj(config))]);
            reloaded.Some? && Setting(reloaded.value, key) == Setting(config, key)
  {
    LoadWritten(store, config);
    if config == [] {
      EmptySetting(key);
    } else {
      MergedSetting(config, key);
    }
  }

  /** A written configuration loads as itself laid over the defaults, or
      as the defaults when it is empty. */
  lemma LoadWritten(store: Store, config: seq<Member>)
    ensures LoadConfig(store[ConfigFile := EncodeData(JObj(config))])
            == if config == [] then Some(Defaults) else Some(Merge(Defaults, config))
  {
    var text := EncodeData(JObj(config));
    DecodeEncodeData(JObj(config));
    LoadText(store, text, JObj(config));
  }

  /** A configuration file whose text decodes to `v` loads as `v` would. */
  lemma LoadText(store: Store, text: string, v: Json)
    requires DecodeData(text) == Some(v)
    ensures LoadConfig(store[ConfigFile := text])
            == if !Truthy(v) then Some(Defaults) else if v.JObj? then Some(Merge(Defaults, v.members)) else None
  {
  }

  /** Every lookup in an empty configuration falls back to the defaults. */
  lemma EmptySetting(key: string)
    ensures Setting(Defaults, key) == Setting([], key)
  {
  }

  /** Laying settings over the defaults changes none of them. */
  lemma MergedSetting(config: seq<Member>, key: string)
    ensures Setting(Merge(Defaults, config), key) == Setting(config, key)
  {
    MergeLookup(Defaults, config, key);
  }

  /** The configuration file is never a day's log file, so saving the
      configuration leaves every day's log as it was. */
  lemma ConfigIsNoLog(store: Store, text: string, date: string)
    ensures LoadDate(store[ConfigFile := text], date) == LoadDate(store, date)
  {
    assert LogFileName(date)[0] == 'd' != ConfigFile[0];
  }

  // ---------------------------------------------------------------- the object

  class Config {
    var config: seq<Member>
    var store: Store

    constructor Of(config: seq<Member>, store: Store)
      ensures this.config == config && this.store == store
    {
      this.config := config;
      this.store := store;
    }

    /** `save`: the configuration file holds the encoded settings. */
    method Save()
      modifies this
      ensures config == old(config)
      ensures store == old(store)[ConfigFile := EncodeData(JObj(config))]
    {
      store := store[ConfigFile := EncodeData(JObj(config))];
    }

    /** `get`. */
    method Get(key: string) returns (r: Json)
      ensures r == Setting(config, key)
    {
      var stored := Lookup(config, key);
      if stored.Some? {
        r := stored.value;
      } else {
        var fallback := Lookup(Defaults, key);
        r := if fallback.Some? then fallback.value else JNull;
      }
    }

    /** `set`: the key takes the value, in memory and on disk. */
    method Set(key: string, value: Json)
      modifies this
      ensures config == Put(old(config), key, value)
      ensures store == old(store)[ConfigFile := EncodeData(JObj(config))]
    {
      config := Put(config, key, value);
      Save();
    }

    /** `verify_password`: the digest of the password is the stored digest. */
    method VerifyPassword(hash: string -> string, password: string) returns (ok: bool)
      ensures ok <==> Lookup(config, "admin_password_hash") == Some(JStr(hash(password)))
    {
      ok := Lookup(config, "admin_password_hash") == Some(JStr(hash(password)));
    }

    /** `set_password`: the digest of the new password is stored, so
        `verify_password` now accepts that password. */
    method SetPassword(hash: string -> string, password: string)
      modifies this
      ensures config == Put(old(config), "admin_password_hash", JStr(hash(password)))
      ensures store == old(store)[ConfigFile := EncodeData(JObj(config))]
      ensures Lookup(config, "admin_password_hash") == Some(JStr(hash(password)))
    {
      PutLookup(config, "admin_password_hash", JStr(hash(password)), "admin_password_hash");
      config := Put(config, "admin_password_hash", JStr(hash(password)));
      Save();
    }
  }

  /** `Config()`: loading the configuration file; None where it raises. */
  method Open(files: Store) returns (c: Config?)
    ensures c == null <==> LoadConfig(files).None?
    ensures c != null ==> fresh(c) && c.config == LoadConfig(files).value && c.store == files
  {
    var loaded := LoadConfig(files);
    if loaded.None? {
      return null;
    }
    c := new Config.Of(loaded.value, files);
  }

  /** A setting that was set reads back as set (the set-then-get check of
      the integration script), and every other setting is untouched. */
  lemma SetThenGet(config: seq<Member>, key: string, value: Json, other: string)
    requires other != key
    ensures Setting(Put(config, key, value), key) == value
    ensures Setting(Put(config, key, value), other) == Setting(config, other)
  {
    PutLookup(config, key, value, key);
    PutLookup(config, key, value, other);
  }

  /** No two defaults share a key. */
  lemma DefaultsDistinct()
    ensures forall i, j :: 0 <= i < j < |Defaults| ==> Defaults[i].key != Defaults[j].key
  {
  }

  /** Without a configuration file every setting reads as `DEFAULT_CONFIG`
      lists it (the admin digest included, so the default password is
      accepted exactly when its digest is `DefaultPasswordHash`). */
  lemma FreshDefaults(store: Store)
    requires ConfigFile !in store
    ensures LoadConfig(store) == Some(Defaults)
    ensures forall i :: 0 <= i < |Defaults| ==> Setting(Defaults, Defaults[i].key) == Defaults[i].value
  {
    forall i | 0 <= i < |Defaults|
      ensures Setting(Defaults, Defaults[i].key) == Defaults[i].value
    {
      DefaultSetting(i);
    }
  }

  /** Each default reads as it is listed. */
  lemma DefaultSetting(i: int)
    requires 0 <= i < |Defaults|
    ensures Lookup(Defaults, Defaults[i].key) == Some(Defaults[i].value)
  {
    DefaultsDistinct();
    LookupDistinct(Defaults, i);
  }
}
