/**
  src/feed_config.py: the run's configuration. The environment and the
  parsed configuration files are inputs (a map of variables and the list of
  sections with their `url` and `numPosts` options); the model keeps what
  the code derives from them: the global records, the services keyed by
  encoded section name, the credential check and the lookups.
 */
module FeedConfig {
  import opened Wrappers
  import opened PyStr
  import opened Util

  /** `MAIN`. */
  datatype Main = Main(numToProcessAtOneTime: int, storeFileName: string)
  /** `SERVICE`: one feed. */
  datatype Service = Service(serviceName: Option<string>, url: string, numPosts: Option<int>)
  /** `AWS_STORAGE`. */
  datatype AwsStorage = AwsStorage(
    awsAccessKey: Option<string>, awsAccessSecret: Option<string>, awsBucket: string, awsFileName: string)
  /** `TWITTER`: the four credentials. */
  datatype TwitterApp = TwitterApp(
    appTwitterKey: Option<string>, appTwitterSecret: Option<string>,
    userTwitterKey: Option<string>, userTwitterSecret: Option<string>)
  /** `DB`. */
  datatype Db = Db(url: Option<string>, sslmode: bool)

  /** What `globalConfig` hands back, tagged by its kind. */
  datatype GlobalRecord =
    | MainRecord(main: Main)
    | TwitterRecord(app: TwitterApp)
    | AwsRecord(aws: AwsStorage)
    | DbRecord(db: Db)

  /** A section of the parsed configuration files, with the values of its
      `url` and `numPosts` options when they are set. */
  datatype Section = Section(name: string, url: Option<string>, numPosts: Option<string>)

  type Env = map<string, string>

  const APP_TWITTER_KEY_ENV := "APP_TWITTER_KEY"
  const APP_TWITTER_SECRET_ENV := "APP_TWITTER_SECRET"
  const USER_TWITTER_KEY_ENV := "USER_TWITTER_KEY"
  const USER_TWITTER_SECRET_ENV := "USER_TWITTER_SECRET"
  const AWS_KEY_ENV := "AWS_KEY"
  const AWS_SECRET_ENV := "AWS_SECRET"
  const AWS_S3_BUCKET_ENV := "AWS_S3_BUCKET"
  const AWS_S3_STORE_FILE_NAME_ENV := "AWS_S3_STORE_FILE_NAME"
  const TWEETS_AT_ONE_TIME_ENV := "TWEETS_AT_ONE_TIME"
  const STORE_FILE_NAME_ENV := "STORE_FILE_NAME"
  const DATABASE_URL := "DATABASE_URL"
  const SSL_MODE := "SSL_MODE"
  const DEFAULT_STORE_PATH := "~/.twStore"
  const DEFAULT_S3_BUCKET := "rsstotwitter"
  const DEFAULT_AWS_S3_STORE_FILE_NAME := ".twStore"
  const DEFAULT_TWEETS_AT_ONE_TIME := 15

  // ---------------------------------------------------------------------------
  // The global records, from the environment

  /** An environment variable, or `default` when it is unset. */
  function EnvOr(env: Env, name: string, default: Option<string>): (r: Option<string>)
    ensures name in env ==> r == Some(env[name])
    ensures name !in env ==> r == default
  {
    if name in env then Some(env[name]) else default
  }

  /** `MAIN`: the run-wide cap, read with `int()` (a ValueError when it is
      not a number) and 15 when unset, and the store path. */
  function MainFrom(env: Env): (r: Result<Main>)
    ensures TWEETS_AT_ONE_TIME_ENV !in env ==> r.Ok? && r.value.numToProcessAtOneTime == DEFAULT_TWEETS_AT_ONE_TIME
    ensures TWEETS_AT_ONE_TIME_ENV in env ==>
      if ParseInt(env[TWEETS_AT_ONE_TIME_ENV], false).Some?
      then r.Ok? && r.value.numToProcessAtOneTime == ParseInt(env[TWEETS_AT_ONE_TIME_ENV], false).value
      else r == Err(ValueError(env[TWEETS_AT_ONE_TIME_ENV]))
    ensures r.Ok? ==> r.value.storeFileName == EnvOr(env, STORE_FILE_NAME_ENV, Some(DEFAULT_STORE_PATH)).value
  {
    var path := EnvOr(env, STORE_FILE_NAME_ENV, Some(DEFAULT_STORE_PATH)).value;
    if TWEETS_AT_ONE_TIME_ENV !in env then Ok(Main(DEFAULT_TWEETS_AT_ONE_TIME, path))
    else
      var text := env[TWEETS_AT_ONE_TIME_ENV];
      match ParseInt(text, false)
      case None => Err(ValueError(text))
      case Some(n) => Ok(Main(n, path))
  }

  function AwsFrom(env: Env): AwsStorage {
    AwsStorage(
      EnvOr(env, AWS_KEY_ENV, None),
      EnvOr(env, AWS_SECRET_ENV, None),
      EnvOr(env, AWS_S3_BUCKET_ENV, Some(DEFAULT_S3_BUCKET)).value,
      EnvOr(env, AWS_S3_STORE_FILE_NAME_ENV, Some(DEFAULT_AWS_S3_STORE_FILE_NAME)).value)
  }

  function TwitterFrom(env: Env): TwitterApp {
    TwitterApp(
      EnvOr(env, APP_TWITTER_KEY_ENV, None),
      EnvOr(env, APP_TWITTER_SECRET_ENV, None),
      EnvOr(env, USER_TWITTER_KEY_ENV, None),
      EnvOr(env, USER_TWITTER_SECRET_ENV, None))
  }

  /** `DB`: `sslmode` is true only when `SSL_MODE` is exactly `"true"`. */
  function DbFrom(env: Env): Db {
    Db(EnvOr(env, DATABASE_URL, None), SSL_MODE in env && env[SSL_MODE] == "true")
  }

  /** With nothing set, every record takes its default and no credential is present. */
  lemma EmptyEnvironmentDefaults()
    ensures MainFrom(map[]) == Ok(Main(15, "~/.twStore"))
    ensures AwsFrom(map[]) == AwsStorage(None, None, "rsstotwitter", ".twStore")
    ensures TwitterFrom(map[]) == TwitterApp(None, None, None, None)
    ensures DbFrom(map[]) == Db(None, false)
    ensures Missing(TwitterFrom(map[])) == ["app key", "app secret", "user key", "user secret"]
  {
  }

  // ---------------------------------------------------------------------------
  // Credential validation

  /** The labels of the missing (falsy) credentials, in the fixed order app
      key, app secret, user key, user secret. */
  function Missing(app: TwitterApp): seq<string> {
    (if TruthyStr(app.appTwitterKey) then [] else ["app key"])
    + (if TruthyStr(app.appTwitterSecret) then [] else ["app secret"])
    + (if TruthyStr(app.userTwitterKey) then [] else ["user key"])
    + (if TruthyStr(app.userTwitterSecret) then [] else ["user secret"])
  }

  /** The message of the SystemError `_validate` raises. */
  function ValidationMessage(missing: string): string {
    "Twitter app was not configured (" + missing + "). Did you setup the env variables as defined in README?"
  }

  /** `_validate`: the list of missing credentials is built up one check at
      a time; when it is not empty a SystemError names them all, joined by
      commas without spaces. */
  method Validate(app: TwitterApp) returns (err: Option<Error>)
    ensures err.None? <==>
      TruthyStr(app.appTwitterKey) && TruthyStr(app.appTwitterSecret)
      && TruthyStr(app.userTwitterKey) && TruthyStr(app.userTwitterSecret)
    ensures err.Some? ==> err == Some(SystemError(ValidationMessage(Join(Missing(app), ","))))
  {
    var twitterError: Option<string> := None;
    ghost var missing: seq<string> := [];
    if !TruthyStr(app.appTwitterKey) {
      twitterError := Some("app key");
      missing := missing + ["app key"];
    }
    assert Tracks(twitterError, missing);
    if !TruthyStr(app.appTwitterSecret) {
      twitterError := Some(Extend(twitterError, "app secret"));
      JoinSnoc(missing, "app secret");
      missing := missing + ["app secret"];
    }
    assert Tracks(twitterError, missing);
    if !TruthyStr(app.userTwitterKey) {
      twitterError := Some(Extend(twitterError, "user key"));
      JoinSnoc(missing, "user key");
      missing := missing + ["user key"];
    }
    assert Tracks(twitterError, missing);
    if !TruthyStr(app.userTwitterSecret) {
      twitterError := Some(Extend(twitterError, "user secret"));
      JoinSnoc(missing, "user secret");
      missing := missing + ["user secret"];
    }
    assert Tracks(twitterError, missing);
    assert missing == Missing(app);
    if TruthyStr(twitterError) {
      return Some(SystemError(ValidationMessage(twitterError.value)));
    }
    return None;
  }

  /** The text built so far is set exactly when some label was collected,
      and then it is those labels joined by commas. */
  ghost predicate Tracks(twitterError: Option<string>, missing: seq<string>) {
    && (twitterError.Some? <==> missing != [])
    && (twitterError.Some? ==> twitterError.value == Join(missing, ",") && twitterError.value != [])
  }

  /** `(twitterError + "," if twitterError else "") + label`. */
  function Extend(twitterError: Option<string>, item: string): string {
    (if TruthyStr(twitterError) then twitterError.value + "," else "") + item
  }

  lemma JoinSnoc(parts: seq<string>, item: string)
    ensures parts != [] ==> Join(parts + [item], ",") == Join(parts, ",") + "," + item
    ensures parts == [] ==> Join(parts + [item], ",") == item
  {
    assert (parts + [item])[..|parts|] == parts;
  }

  /** The message of test/test_feed_config.py's `test_validation`, when no
      credential is set. */
  lemma AllMissingMessage()
    ensures Join(Missing(TwitterApp(None, None, None, None)), ",") == "app key,app secret,user key,user secret"
  {
    var a := ["app key"];
    JoinSnoc(a, "app secret");
    JoinSnoc(a + ["app secret"], "user key");
    JoinSnoc(a + ["app secret"] + ["user key"], "user secret");
    assert Missing(TwitterApp(None, None, None, None)) == a + ["app secret"] + ["user key"] + ["user secret"];
    assert "app key" + "," + "app secret" == "app key,app secret";
    assert "app key,app secret" + "," + "user key" == "app key,app secret,user key";
    assert "app key,app secret,user key" + "," + "user secret" == "app key,app secret,user key,user secret";
  }

  /** A label is listed exactly when its credential is falsy. */
  lemma MissingListsExactlyTheFalsy(app: TwitterApp)
    ensures "app key" in Missing(app) <==> !TruthyStr(app.appTwitterKey)
    ensures "app secret" in Missing(app) <==> !TruthyStr(app.appTwitterSecret)
    ensures "user key" in Missing(app) <==> !TruthyStr(app.userTwitterKey)
    ensures "user secret" in Missing(app) <==> !TruthyStr(app.userTwitterSecret)
  {
    var a := if TruthyStr(app.appTwitterKey) then [] else ["app key"];
    var b := if TruthyStr(app.appTwitterSecret) then [] else ["app secret"];
    var c := if TruthyStr(app.userTwitterKey) then [] else ["user key"];
    var d := if TruthyStr(app.userTwitterSecret) then [] else ["user secret"];
    assert Missing(app) == a + b + c + d;
    LabelsDiffer();
  }

  lemma LabelsDiffer()
    ensures "app key" != "app secret" && "app key" != "user key" && "app key" != "user secret"
    ensures "app secret" != "user key" && "app secret" != "user secret" && "user key" != "user secret"
  {
    assert "app key"[4] != "app secret"[4];
    assert "app key"[0] != "user key"[0];
    assert "user key"[5] != "user secret"[5];
  }

  // ---------------------------------------------------------------------------
  // Services

  /** `_read_config` for one section: the service is named by the encoded
      section name; a missing `url` is a NoOptionError, a `numPosts` that
      is not a number a ValueError, and an absent `numPosts` is `None`. */
  function SectionService(s: Section): (r: Result<Service>)
    ensures s.url.None? ==> r == Err(NoOptionError("url"))
    ensures r.Ok? ==> r.value.serviceName == Encode(Some(s.name)) && Some(r.value.url) == s.url
    ensures r.Ok? && s.numPosts.None? ==> r.value.numPosts == None
    ensures s.url.Some? && s.numPosts.Some? ==>
      if ParseInt(s.numPosts.value, false).None? then r == Err(ValueError(s.numPosts.value))
      else r.Ok? && r.value.numPosts == ParseInt(s.numPosts.value, false)
  {
    if s.url.None? then Err(NoOptionError("url"))
    else if s.numPosts.None? then Ok(Service(Encode(Some(s.name)), s.url.value, None))
    else
      match ParseInt(s.numPosts.value, false)
      case None => Err(ValueError(s.numPosts.value))
      case Some(n) => Ok(Service(Encode(Some(s.name)), s.url.value, Some(n)))
  }

  type Services = map<Option<string>, Service>

  predicate Distinct<T(==)>(s: seq<T>) {
    forall i, j :: 0 <= i < j < |s| ==> s[i] != s[j]
  }

  /** The services dictionary together with its key order: every key is
      listed once, and every service is named by its (encoded) key. */
  ghost predicate WellFormed(m: Services, names: seq<Option<string>>) {
    && (forall k :: k in m <==> k in names)
    && Distinct(names)
    && (forall k :: k in m ==> m[k].serviceName == k && Encode(k) == k)
  }

  /** `_read_config` from the dictionary `m` (with key order `names`) on:
      each section overwrites its key, a new key goes to the end of the
      order, and the first section that raises stops the read. */
  function ReadSections(m: Services, names: seq<Option<string>>, sections: seq<Section>)
    : (r: (Services, seq<Option<string>>, Option<Error>))
    ensures WellFormed(m, names) ==> WellFormed(r.0, r.1)
    decreases |sections|
  {
    if sections == [] then (m, names, None)
    else
      match SectionService(sections[0])
      case Err(e) => (m, names, Some(e))
      case Ok(svc) =>
        var k := svc.serviceName;
        EncodeIdempotent(Some(sections[0].name));
        AddKeepsWellFormed(m, names, svc);
        ReadSections(m[k := svc], if k in m then names else names + [k], sections[1..])
  }

  /** Adding a service under its own (encoded) name keeps the dictionary
      and its key order in step. */
  lemma AddKeepsWellFormed(m: Services, names: seq<Option<string>>, svc: Service)
    requires Encode(svc.serviceName) == svc.serviceName
    ensures WellFormed(m, names) ==>
      WellFormed(m[svc.serviceName := svc], if svc.serviceName in m then names else names + [svc.serviceName])
  {
    if WellFormed(m, names) {
      var k := svc.serviceName;
      var m' := m[k := svc];
      assert forall x :: x in m' ==> m'[x].serviceName == x && Encode(x) == x by {
        forall x | x in m'
          ensures m'[x].serviceName == x && Encode(x) == x
        {
          if x != k {
            assert x in m && m'[x] == m[x];
          }
        }
      }
      if k !in m {
        assert forall x :: x in names + [k] <==> x in names || x == k;
        DistinctSnoc(names, k);
      }
    }
  }

  lemma DistinctSnoc<T>(s: seq<T>, x: T)
    requires Distinct(s) && x !in s
    ensures Distinct(s + [x])
  {
    forall i, j | 0 <= i < j < |s + [x]|
      ensures (s + [x])[i] != (s + [x])[j]
    {
      assert (s + [x])[i] == s[i];
      if j < |s| {
        assert (s + [x])[j] == s[j];
      }
    }
  }

  /** A sequence that lists each element once has as many elements as its set. */
  lemma {:induction false} DistinctCard<T>(s: seq<T>)
    requires Distinct(s)
    ensures |set x | x in s| == |s|
  {
    if s != [] {
      var rest, k := s[..|s| - 1], s[|s| - 1];
      assert s == rest + [k];
      assert Distinct(rest) by {
        forall i, j | 0 <= i < j < |rest|
          ensures rest[i] != rest[j]
        {
          assert s[i] == rest[i] && s[j] == rest[j];
        }
      }
      assert k !in rest by {
        forall i | 0 <= i < |rest|
          ensures rest[i] != k
        {
          assert s[i] == rest[i];
        }
      }
      DistinctCard(rest);
      assert (set x | x in s) == (set x | x in rest) + {k};
    }
  }

  /** In a well-formed dictionary the key order lists every key once. */
  lemma DistinctKeysCount(m: Services, names: seq<Option<string>>)
    requires forall k :: k in m <==> k in names
    requires Distinct(names)
    ensures |names| == |m|
  {
    DistinctCard(names);
    assert m.Keys == set x | x in names;
  }

  // ---------------------------------------------------------------------------
  // The configuration object

  /** `Config`: the global records, fixed when it is built, and the services
      read from the configuration files, in the order they were first seen. */
  class Config {
    const main: Main
    const aws: AwsStorage
    const twitterApp: TwitterApp
    const db: Db
    var services: Services
    var names: seq<Option<string>>

    ghost predicate Valid()
      reads this
    {
      WellFormed(services, names)
    }

    /** The records `__init__` derives from the environment, before any file is read. */
    constructor (main: Main, aws: AwsStorage, twitterApp: TwitterApp, db: Db)
      ensures Valid()
      ensures this.main == main && this.aws == aws && this.twitterApp == twitterApp && this.db == db
      ensures services == map[] && names == []
    {
      this.main, this.aws, this.twitterApp, this.db := main, aws, twitterApp, db;
      services, names := map[], [];
    }

    /** `_read_config`: one service per section, under its encoded name. */
    method ReadConfig(sections: seq<Section>) returns (err: Option<Error>)
      requires Valid()
      modifies this
      ensures Valid()
      ensures (services, names, err) == ReadSections(old(services), old(names), sections)
    {
      var i := 0;
      while i < |sections|
        invariant 0 <= i <= |sections|
        invariant WellFormed(services, names)
        invariant ReadSections(services, names, sections[i..]) == ReadSections(old(services), old(names), sections)
      {
        assert sections[i..][1..] == sections[i + 1..];
        var r := SectionService(sections[i]);
        if r.Err? {
          return Some(r.error);
        }
        var k := r.value.serviceName;
        EncodeIdempotent(Some(sections[i].name));
        if k !in services {
          names := names + [k];
        }
        services := services[k := r.value];
        i := i + 1;
      }
      return None;
    }

    /** `__getitem__`: the service under the encoded name, KeyError when there is none. */
    function Get(section: Option<string>): (r: Result<Service>)
      requires Valid()
      reads this
      ensures r.Ok? <==> Encode(section) in services
      ensures r.Ok? ==> r.value.serviceName == Encode(section) && r.value == services[Encode(section)]
      ensures r.Err? ==> r.error == KeyError(Encode(section))
    {
      var k := Encode(section);
      if k in services then Ok(services[k]) else Err(KeyError(k))
    }

    /** `services()`: the encoded names, each once, in the order they were first read. */
    function Services(): (r: seq<Option<string>>)
      requires Valid()
      reads this
      ensures forall k :: k in r <==> k in services
      ensures Distinct(r) && |r| == |services|
    {
      DistinctKeysCount(services, names);
      names
    }

    /** `globalConfig`: the record of the named kind; any other name is a SystemError. */
    function GlobalConfig(kind: string): (r: Result<GlobalRecord>)
      reads this
      ensures kind == "MAIN" <==> r == Ok(MainRecord(main))
      ensures kind == "TWITTER" <==> r == Ok(TwitterRecord(twitterApp))
      ensures kind == "AWS" <==> r == Ok(AwsRecord(aws))
      ensures kind == "DB" <==> r == Ok(DbRecord(db))
      ensures r.Err? <==> kind !in ["MAIN", "TWITTER", "AWS", "DB"]
      ensures r.Err? ==> r.error == SystemError("Type " + kind + " is not supported")
    {
      if kind == "MAIN" then Ok(MainRecord(main))
      else if kind == "TWITTER" then Ok(TwitterRecord(twitterApp))
      else if kind == "AWS" then Ok(AwsRecord(aws))
      else if kind == "DB" then Ok(DbRecord(db))
      else Err(SystemError("Type " + kind + " is not supported"))
    }
  }

  /** Lookups ignore surrounding blanks and letter case: a padded, mixed-case
      name finds the same service as its upper-cased core. */
  lemma GetIgnoresCaseAndPadding(c: Config, pre: string, name: string, post: string)
    requires c.Valid()
    requires AllSpace(pre) && AllSpace(post) && name != [] && Stripped(name)
    ensures c.Get(Some(pre + name + post)) == c.Get(Some(Upper(name)))
  {
    EncodePadded(pre, name, post);
    EncodeUpper(name);
  }

  lemma EncodeUpper(name: string)
    requires name != [] && Stripped(name)
    ensures Encode(Some(Upper(name))) == Some(Upper(name))
  {
    var u := Upper(name);
    assert !IsSpace(u[0]) && !IsSpace(u[|u| - 1]);
    NormalisedIsFixedPoint(u);
  }

  /** `Config(*files)`: the global records from the environment (a bad
      `TWEETS_AT_ONE_TIME` raises first), then the sections, then the
      credential check. */
  method Open(env: Env, sections: seq<Section>) returns (r: Result<Config>)
    ensures MainFrom(env).Err? ==> r == Err(MainFrom(env).error)
    ensures r.Ok? ==> fresh(r.value) && r.value.Valid()
    ensures r.Ok? ==>
      && r.value.main == MainFrom(env).value && r.value.aws == AwsFrom(env)
      && r.value.twitterApp == TwitterFrom(env) && r.value.db == DbFrom(env)
      && (r.value.services, r.value.names, None) == ReadSections(map[], [], sections)
    ensures MainFrom(env).Ok? ==>
      (r.Ok? <==> ReadSections(map[], [], sections).2 == None && Missing(TwitterFrom(env)) == [])
  {
    var main := MainFrom(env);
    if main.Err? {
      return Err(main.error);
    }
    var c := new Config(main.value, AwsFrom(env), TwitterFrom(env), DbFrom(env));
    var err := c.ReadConfig(sections);
    if err.Some? {
      return Err(err.value);
    }
    err := Validate(c.twitterApp);
    if err.Some? {
      return Err(err.value);
    }
    return Ok(c);
  }
}
