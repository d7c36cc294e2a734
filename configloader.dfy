/**
  The watcher's configuration (configLoader.go): read from the process
  environment, optionally after an env file was loaded into it, with
  defaults for the pauses, the error threshold, the driver name and the
  storage file, and the database DSN and the Kafka host required.
 */
module ConfigLoader {
  import opened Wrappers
  import opened Errors
  import opened Numerals

  /** Pauses are `time.Duration` values: signed 64-bit counts of nanoseconds. */
  datatype Config = Config(
    dekanatDbDriverName: string,
    kafkaHost: string,
    secondaryDekanatDbDSN: string,
    storageFile: string,
    pauseAfterSuccess: int,
    pauseAfterError: int,
    errorCountToBreak: int)

  /** `Config{}`. */
  const ZeroConfig := Config("", "", "", "", 0, 0, 0)

  const MinInt64 := -0x8000_0000_0000_0000
  const MaxInt64 := 0x7fff_ffff_ffff_ffff

  /** `time.Second`, in nanoseconds. */
  const Second := 1_000_000_000

  const DefaultPauseAfterSuccess := 600
  const DefaultPauseAfterError := 60
  const DefaultErrorCountToBreak := 3
  const DefaultDriverName := "firebirdsql"
  const DefaultStorageFile := "storage.txt"

  /** Two's-complement wrap-around of a product into `int64`, as Go's `*` on durations does. */
  function Wrap64(x: int): (r: int)
    ensures MinInt64 <= r <= MaxInt64
    ensures MinInt64 <= x <= MaxInt64 ==> r == x
    ensures (x - r) % 0x1_0000_0000_0000_0000 == 0
  {
    (x - MinInt64) % 0x1_0000_0000_0000_0000 + MinInt64
  }

  /** `os.Getenv`: an unset variable reads as the empty string. */
  function Getenv(env: map<string, string>, key: string): (r: string)
    ensures key in env ==> r == env[key]
    ensures key !in env ==> r == ""
  {
    if key in env then env[key] else ""
  }

  /** An optional `+` or `-` followed by at least one decimal digit, and nothing else. */
  predicate IntegerText(s: string) {
    s != [] && var digits := if s[0] == '+' || s[0] == '-' then s[1..] else s;
      digits != [] && AllDigits(digits)
  }

  /** The value an integer text denotes, before any range check. */
  function TextValue(s: string): int
    requires IntegerText(s)
  {
    if s[0] == '-' then -Number(s[1..]) else if s[0] == '+' then Number(s[1..]) else Number(s)
  }

  /**
    `strconv.ParseInt(s, 10, 0)` (and `strconv.Atoi`) on a 64-bit platform:
    an optional sign and at least one decimal digit, nothing else, within
    the `int64` range; `None` stands for the error.
   */
  function ParseInt(s: string): (r: Option<int>)
    ensures r.Some? ==> MinInt64 <= r.value <= MaxInt64
    ensures r.Some? <==> IntegerText(s) && MinInt64 <= TextValue(s) <= MaxInt64
    ensures r.Some? ==> r.value == TextValue(s)
    ensures s == [] ==> r.None?
    ensures AllDigits(s) && s != [] && Number(s) <= MaxInt64 ==> r == Some(Number(s))
  {
    if s == [] then None
    else
      var signed := s[0] == '+' || s[0] == '-';
      var digits := if signed then s[1..] else s;
      if digits == [] || !AllDigits(digits) then None
      else
        var v := if s[0] == '-' then -Number(digits) else Number(digits);
        if MinInt64 <= v <= MaxInt64 then Some(v) else None
  }

  /** Text with a letter, a blank, a unit or a lone sign does not parse, so such a count takes its default. */
  lemma ParseIntRejects()
    ensures ParseInt("abc").None? && ParseInt("5s").None? && ParseInt(" 5").None?
    ensures ParseInt("+").None? && ParseInt("-").None? && ParseInt("1.5").None?
    ensures CountOrDefault("abc", DefaultErrorCountToBreak) == 3
  {
    assert !IsDigit("5s"[1]) && !IsDigit(" 5"[0]) && !IsDigit("1.5"[1]) && !IsDigit("abc"[0]);
  }

  /** Reading back the `%d` text of any `int64` gives it back. */
  lemma ParseIntRoundTrip(n: int)
    requires MinInt64 <= n <= MaxInt64
    ensures ParseInt(IntToString(n)) == Some(n)
  {
    if n < 0 {
      DecimalRoundTrip(-n);
      assert IntToString(n)[1..] == Decimal(-n);
    } else {
      DecimalRoundTrip(n);
      assert IsDigit(Decimal(n)[0]);
    }
  }

  /** A count read from the environment: the parsed value, or `default` when it is unparsable or zero. */
  function CountOrDefault(value: string, default: int): (r: int)
    ensures ParseInt(value).None? || ParseInt(value) == Some(0) ==> r == default
    ensures ParseInt(value).Some? && ParseInt(value).value != 0 ==> r == ParseInt(value).value
    ensures default != 0 ==> r != 0
  {
    var parsed := ParseInt(value);
    if parsed.None? || parsed.value == 0 then default else parsed.value
  }

  /** `time.Second * time.Duration(seconds)`, wrapping as `int64` multiplication does. */
  function Seconds(seconds: int): (r: int)
    ensures MinInt64 <= r <= MaxInt64
    ensures MinInt64 <= seconds * Second <= MaxInt64 ==> r == seconds * Second
  {
    Wrap64(seconds * Second)
  }

  /** `loadConfig`; `envFileError` is the outcome of loading the env file into the environment `env`. */
  function LoadConfig(envFilename: string, envFileError: Option<string>, env: map<string, string>): (r: (Config, Option<Error>))
    ensures envFilename != "" && envFileError.Some? ==>
      r == (ZeroConfig, Some(New("Error loading " + envFilename + " file: " + envFileError.value)))
    ensures r.1.Some? ==> r.0 == ZeroConfig
    ensures r.1.None? <==>
      (envFilename == "" || envFileError.None?)
      && Getenv(env, "SECONDARY_DEKANAT_DB_DSN") != ""
      && Getenv(env, "KAFKA_HOST") != ""
    ensures r.1.None? ==>
      && r.0.secondaryDekanatDbDSN == Getenv(env, "SECONDARY_DEKANAT_DB_DSN")
      && r.0.kafkaHost == Getenv(env, "KAFKA_HOST")
      && r.0.dekanatDbDriverName == (if Getenv(env, "DEKANAT_DB_DRIVER_NAME") == "" then DefaultDriverName
                                     else Getenv(env, "DEKANAT_DB_DRIVER_NAME"))
      && r.0.storageFile == (if Getenv(env, "STORAGE_FILE") == "" then DefaultStorageFile else Getenv(env, "STORAGE_FILE"))
      && r.0.errorCountToBreak == CountOrDefault(Getenv(env, "ERROR_COUNT_TO_BREAK"), DefaultErrorCountToBreak)
      && r.0.dekanatDbDriverName != "" && r.0.storageFile != ""
      && r.0.errorCountToBreak != 0
      && r.0.pauseAfterSuccess == Seconds(CountOrDefault(Getenv(env, "PAUSE_AFTER_SUCCESS"), DefaultPauseAfterSuccess))
      && r.0.pauseAfterError == Seconds(CountOrDefault(Getenv(env, "PAUSE_AFTER_ERROR"), DefaultPauseAfterError))
  {
    if envFilename != "" && envFileError.Some? then
      (ZeroConfig, Some(New("Error loading " + envFilename + " file: " + envFileError.value)))
    else
      var pauseAfterSuccess := CountOrDefault(Getenv(env, "PAUSE_AFTER_SUCCESS"), DefaultPauseAfterSuccess);
      var pauseAfterError := CountOrDefault(Getenv(env, "PAUSE_AFTER_ERROR"), DefaultPauseAfterError);
      var errorCountToBreak := CountOrDefault(Getenv(env, "ERROR_COUNT_TO_BREAK"), DefaultErrorCountToBreak);
      var driver := Getenv(env, "DEKANAT_DB_DRIVER_NAME");
      var config := Config(
        if driver == "" then DefaultDriverName else driver,
        Getenv(env, "KAFKA_HOST"),
        Getenv(env, "SECONDARY_DEKANAT_DB_DSN"),
        Getenv(env, "STORAGE_FILE"),
        Seconds(pauseAfterSuccess),
        Seconds(pauseAfterError),
        errorCountToBreak);
      if config.secondaryDekanatDbDSN == "" then
        (ZeroConfig, Some(New("empty SECONDARY_DEKANAT_DB_DSN")))
      else if config.kafkaHost == "" then
        (ZeroConfig, Some(New("empty KAFKA_HOST")))
      else
        (config.(storageFile := if config.storageFile == "" then DefaultStorageFile else config.storageFile), None)
  }

  /** The DSN is checked before the Kafka host: with both missing, the DSN is reported. */
  lemma DsnCheckedFirst(envFilename: string, envFileError: Option<string>, env: map<string, string>)
    requires envFilename == "" || envFileError.None?
    requires Getenv(env, "SECONDARY_DEKANAT_DB_DSN") == ""
    ensures LoadConfig(envFilename, envFileError, env) == (ZeroConfig, Some(New("empty SECONDARY_DEKANAT_DB_DSN")))
  {
  }

  /** With the DSN set and the Kafka host missing, the Kafka host is reported. */
  lemma KafkaHostRequired(envFilename: string, envFileError: Option<string>, env: map<string, string>)
    requires envFilename == "" || envFileError.None?
    requires Getenv(env, "SECONDARY_DEKANAT_DB_DSN") != "" && Getenv(env, "KAFKA_HOST") == ""
    ensures LoadConfig(envFilename, envFileError, env) == (ZeroConfig, Some(New("empty KAFKA_HOST")))
  {
  }

  /** Unset optional variables take their defaults: 10 minutes, 1 minute, 3 errors, the Firebird driver, storage.txt. */
  lemma Defaults(env: map<string, string>)
    requires "SECONDARY_DEKANAT_DB_DSN" in env && env["SECONDARY_DEKANAT_DB_DSN"] != ""
    requires "KAFKA_HOST" in env && env["KAFKA_HOST"] != ""
    requires forall k :: k in env ==> k in {"SECONDARY_DEKANAT_DB_DSN", "KAFKA_HOST"}
    ensures LoadConfig("", None, env) == (Config(DefaultDriverName, env["KAFKA_HOST"], env["SECONDARY_DEKANAT_DB_DSN"],
      DefaultStorageFile, 600 * Second, 60 * Second, 3), None)
  {
    assert "PAUSE_AFTER_SUCCESS" !in env && "PAUSE_AFTER_ERROR" !in env && "ERROR_COUNT_TO_BREAK" !in env;
    assert "DEKANAT_DB_DRIVER_NAME" !in env && "STORAGE_FILE" !in env;
  }

  /** A set pause of `n` seconds, negative ones included, is used as it is, as long as `n` seconds fit a duration. */
  lemma {:induction false} PauseUsedAsSeconds(env: map<string, string>, n: int)
    requires Getenv(env, "SECONDARY_DEKANAT_DB_DSN") != "" && Getenv(env, "KAFKA_HOST") != ""
    requires n != 0 && MinInt64 <= n * Second <= MaxInt64
    requires Getenv(env, "PAUSE_AFTER_SUCCESS") == IntToString(n)
    ensures LoadConfig("", None, env).0.pauseAfterSuccess == n * Second
  {
    ParseIntRoundTrip(n);
  }

  /** 2^55 seconds is a whole number of 2^64 nanoseconds, so its duration wraps to zero. */
  lemma SecondsWrapToZero()
    ensures Seconds(0x80_0000_0000_0000) == 0
  {
    assert 0x80_0000_0000_0000 * Second == 1953125 * 0x1_0000_0000_0000_0000;
  }

  /** A configured pause of 2^55 seconds passes the zero check and yet becomes a zero pause. */
  lemma {:induction false} OverflowGivesZeroPause(env: map<string, string>, n: int)
    requires Getenv(env, "SECONDARY_DEKANAT_DB_DSN") != "" && Getenv(env, "KAFKA_HOST") != ""
    requires n == 0x80_0000_0000_0000 && Getenv(env, "PAUSE_AFTER_SUCCESS") == IntToString(n)
    ensures LoadConfig("", None, env).1.None?
    ensures LoadConfig("", None, env).0.pauseAfterSuccess == 0
  {
    ParseIntRoundTrip(n);
    assert CountOrDefault(Getenv(env, "PAUSE_AFTER_SUCCESS"), DefaultPauseAfterSuccess) == n;
    SecondsWrapToZero();
  }

  /**
    The pause the zero check evidently means to guarantee: a configured
    number of seconds whose duration does not fit `int64` falls back to the
    default like an unparsable one, so the pause is never zero and is always
    exactly the chosen number of seconds.
   */
  function CheckedPause(value: string, default: int): (r: int)
    requires default != 0 && MinInt64 <= default * Second <= MaxInt64
    ensures r != 0
    ensures ParseInt(value).None? || ParseInt(value) == Some(0) ==> r == default * Second
    ensures (ParseInt(value).Some? && ParseInt(value).value != 0
             && MinInt64 <= ParseInt(value).value * Second <= MaxInt64) ==> r == ParseInt(value).value * Second
  {
    var n := CountOrDefault(value, default);
    if MinInt64 <= n * Second <= MaxInt64 then n * Second else default * Second
  }
}
