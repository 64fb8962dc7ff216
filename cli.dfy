/**
  The command-line configuration of the cleanup tool (cli.go): the parsed flag
  values, and the validation step that fills missing values from environment
  variables, rejects the configuration at the first value still missing, and
  turns a bare registry name into the registry's HTTPS endpoint.

  The environment is a map from variable names to values; a variable that is
  not in the map reads as the empty string, as `os.Getenv` returns for an unset
  variable.
 */
module Cli {
  import opened Wrappers
  import Strconv

  const RegistryNameVar: string := "DUSTY_REG_NAME"
  const ClientIdVar: string := "DUSTY_CLIENT_ID"
  const ClientSecretVar: string := "DUSTY_CLIENT_SECRET"
  const TagLimitVar: string := "DUSTY_TAG_LIMIT"

  /** The value of every field of a Config. */
  datatype Settings = Settings(
    registryName: string,
    imageLimit: Strconv.Int64,
    clientId: string,
    clientSecret: string,
    verboseLogging: bool,
    dryRun: bool)

  /** How IsValid ends: it returns true, it returns false, or it stops the
      process through `log.Fatal` because DUSTY_TAG_LIMIT is not an integer. */
  datatype Verdict = Valid | Invalid | Fatal

  /** The verdict together with the configuration as IsValid leaves it. */
  datatype Validation = Validation(verdict: Verdict, config: Settings)

  function Getenv(env: map<string, string>, key: string): string
  {
    if key in env then env[key] else ""
  }

  /** One required string field: a non-empty flag value is kept, an empty one
      is replaced by a non-empty environment value, and otherwise the field is
      missing. */
  function Fill(flagValue: string, envValue: string): (r: Option<string>)
    ensures r.Some? <==> flagValue != "" || envValue != ""
    ensures r.Some? ==> r.value != ""
    ensures flagValue != "" ==> r == Some(flagValue)
    ensures flagValue == "" && r.Some? ==> r.value == envValue
  {
    if flagValue != "" then Some(flagValue)
    else if envValue != "" then Some(envValue)
    else None
  }

  /** The outcome of the limit step of IsValid. */
  datatype LimitStep = Limit(value: Strconv.Int64) | Missing | Unparsable

  /** The limit step: a positive limit is kept; a limit that is zero or
      negative is replaced by DUSTY_TAG_LIMIT read as an integer, is missing
      when that variable is empty, and is fatal when it is not an integer. The
      value read from the environment is not checked to be positive. */
  function ResolveLimit(limit: Strconv.Int64, envValue: string): (r: LimitStep)
    ensures limit > 0 ==> r == Limit(limit)
    ensures limit <= 0 && envValue == "" ==> r == Missing
    ensures limit <= 0 && envValue != "" ==>
              (r == Unparsable <==> Strconv.Atoi(envValue) == None)
    ensures limit <= 0 && r.Limit? ==> Strconv.Atoi(envValue) == Some(r.value)
  {
    if limit > 0 then Limit(limit)
    else if envValue == "" then Missing
    else match Strconv.Atoi(envValue)
      case None => Unparsable
      case Some(i) => Limit(i)
  }

  /** Go's `strings.HasPrefix`. */
  predicate HasPrefix(s: string, prefix: string)
  {
    |prefix| <= |s| && s[..|prefix|] == prefix
  }

  /** A registry name that does not start with "http" is taken to be the bare
      name of an Azure Container Registry and becomes its HTTPS endpoint on
      port 443; one that does is used as it is. */
  function RegistryUrl(name: string): (url: string)
    ensures HasPrefix(url, "http")
    ensures url == name <==> HasPrefix(name, "http")
    ensures !HasPrefix(name, "http") ==> url == "https://" + name + ".azurecr.io:443"
  {
    if HasPrefix(name, "http") then name
    else
      var url := "https://" + name + ".azurecr.io:443";
      assert url[..4] == "http";
      url
  }

  /** IsValid as a function of the configuration it starts from: the checks
      run in source order, and the first missing value ends validation with
      the fields filled so far. */
  function Validate(c: Settings, env: map<string, string>): Validation
  {
    match Fill(c.registryName, Getenv(env, RegistryNameVar))
    case None => Validation(Invalid, c)
    case Some(registryName) =>
      var c1 := c.(registryName := registryName);
      match Fill(c1.clientId, Getenv(env, ClientIdVar))
      case None => Validation(Invalid, c1)
      case Some(clientId) =>
        var c2 := c1.(clientId := clientId);
        match Fill(c2.clientSecret, Getenv(env, ClientSecretVar))
        case None => Validation(Invalid, c2)
        case Some(clientSecret) =>
          var c3 := c2.(clientSecret := clientSecret);
          match ResolveLimit(c3.imageLimit, Getenv(env, TagLimitVar))
          case Missing => Validation(Invalid, c3)
          case Unparsable => Validation(Fatal, c3)
          case Limit(limit) =>
            Validation(Valid, c3.(imageLimit := limit, registryName := RegistryUrl(c3.registryName)))
  }

  /** The configuration record that the flags are parsed into. */
  class Config {
    var registryName: string
    var imageLimit: Strconv.Int64
    var clientId: string
    var clientSecret: string
    var verboseLogging: bool
    var dryRun: bool

    /** A Config holding the values the flags were parsed to. */
    constructor (parsed: Settings)
      ensures Snapshot() == parsed
    {
      registryName := parsed.registryName;
      imageLimit := parsed.imageLimit;
      clientId := parsed.clientId;
      clientSecret := parsed.clientSecret;
      verboseLogging := parsed.verboseLogging;
      dryRun := parsed.dryRun;
    }

    function Snapshot(): Settings
      reads this
    {
      Settings(registryName, imageLimit, clientId, clientSecret, verboseLogging, dryRun)
    }

    /** Fills the empty fields from the environment, checking them in order and
        stopping at the first one still missing; then normalises the registry
        name. The new field values are those of Validate. */
    method IsValid(env: map<string, string>) returns (verdict: Verdict)
      modifies this
      ensures Validation(verdict, Snapshot()) == Validate(old(Snapshot()), env)
    {
      if registryName == "" {
        if Getenv(env, RegistryNameVar) != "" {
          registryName := Getenv(env, RegistryNameVar);
        } else {
          return Invalid;
        }
      }

      if clientId == "" {
        if Getenv(env, ClientIdVar) != "" {
          clientId := Getenv(env, ClientIdVar);
        } else {
          return Invalid;
        }
      }

      if clientSecret == "" {
        if Getenv(env, ClientSecretVar) != "" {
          clientSecret := Getenv(env, ClientSecretVar);
        } else {
          return Invalid;
        }
      }

      if imageLimit <= 0 {
        if Getenv(env, TagLimitVar) != "" {
          var parsed := Strconv.Atoi(Getenv(env, TagLimitVar));
          if parsed.None? {
            return Fatal;
          } else {
            imageLimit := parsed.value;
          }
        } else {
          return Invalid;
        }
      }

      registryName := RegistryUrl(registryName);

      return Valid;
    }
  }

  /** Each of the three credentials-and-endpoint values missing both as a flag
      and in the environment makes validation fail. */
  lemma MissingValueRejected(c: Settings, env: map<string, string>)
    requires || (c.registryName == "" && Getenv(env, RegistryNameVar) == "")
             || (c.clientId == "" && Getenv(env, ClientIdVar) == "")
             || (c.clientSecret == "" && Getenv(env, ClientSecretVar) == "")
    ensures Validate(c, env).verdict == Invalid
  {
  }

  /** A value given as a flag is never replaced from the environment; the
      registry name only changes by normalisation, and the two switches never
      change. */
  lemma FlagsWin(c: Settings, env: map<string, string>)
    ensures var r := Validate(c, env);
      && (c.clientId != "" ==> r.config.clientId == c.clientId)
      && (c.clientSecret != "" ==> r.config.clientSecret == c.clientSecret)
      && (c.imageLimit > 0 ==> r.config.imageLimit == c.imageLimit)
      && (c.registryName != "" ==>
            r.config.registryName == if r.verdict == Valid then RegistryUrl(c.registryName) else c.registryName)
      && r.config.verboseLogging == c.verboseLogging
      && r.config.dryRun == c.dryRun
  {
  }

  /** Validation succeeds exactly when the three strings are available, and the
      limit is positive or DUSTY_TAG_LIMIT is an integer. It is fatal exactly
      when the strings are available, the limit is not positive and
      DUSTY_TAG_LIMIT is set to something that is not an integer. */
  lemma VerdictExactly(c: Settings, env: map<string, string>)
    ensures var present :=
              && (c.registryName != "" || Getenv(env, RegistryNameVar) != "")
              && (c.clientId != "" || Getenv(env, ClientIdVar) != "")
              && (c.clientSecret != "" || Getenv(env, ClientSecretVar) != "");
            var limitEnv := Getenv(env, TagLimitVar);
            && (Validate(c, env).verdict == Valid <==>
                  present && (c.imageLimit > 0 || (limitEnv != "" && Strconv.Atoi(limitEnv).Some?)))
            && (Validate(c, env).verdict == Fatal <==>
                  present && c.imageLimit <= 0 && limitEnv != "" && Strconv.Atoi(limitEnv) == None)
  {
  }

  /** After a successful validation the three strings are set, the registry is
      an http(s) URL, and the limit is the flag's positive value or the
      integer DUSTY_TAG_LIMIT holds. */
  lemma ValidConfig(c: Settings, env: map<string, string>)
    requires Validate(c, env).verdict == Valid
    ensures var r := Validate(c, env).config;
      && r.registryName != "" && r.clientId != "" && r.clientSecret != ""
      && HasPrefix(r.registryName, "http")
      && (if c.imageLimit > 0 then r.imageLimit == c.imageLimit
          else Strconv.Atoi(Getenv(env, TagLimitVar)) == Some(r.imageLimit))
  {
  }

  /** The checks stop at the first failure: fields after the failing one keep
      the values they had, and the registry name is not normalised. */
  lemma StopsAtFirstFailure(c: Settings, env: map<string, string>)
    ensures var r := Validate(c, env);
      && (c.registryName == "" && Getenv(env, RegistryNameVar) == "" ==> r.config == c)
      && (c.clientId == "" && Getenv(env, ClientIdVar) == "" ==>
            r.config.clientSecret == c.clientSecret && r.config.imageLimit == c.imageLimit)
      && (r.verdict != Valid ==>
            r.config.imageLimit == c.imageLimit
            && r.config.registryName == (if c.registryName != "" then c.registryName
                                         else Getenv(env, RegistryNameVar)))
  {
  }

  /** Normalising an endpoint again leaves it alone. */
  lemma RegistryUrlIdempotent(name: string)
    ensures RegistryUrl(RegistryUrl(name)) == RegistryUrl(name)
  {
  }

  /** Running IsValid again on a configuration it accepted, with the same
      environment, accepts it again and changes nothing. */
  lemma ValidateIdempotent(c: Settings, env: map<string, string>)
    requires Validate(c, env).verdict == Valid
    ensures Validate(Validate(c, env).config, env) == Validate(c, env)
  {
  }

  /** The limit from the environment is not checked to be positive: with no
      limit flag and DUSTY_TAG_LIMIT set to "0" or "-1", validation succeeds
      with that limit. */
  lemma NonPositiveEnvLimitAccepted(c: Settings, env: map<string, string>, text: string, limit: int)
    requires c.registryName != "" && c.clientId != "" && c.clientSecret != "" && c.imageLimit == 0
    requires (text, limit) == ("0", 0) || (text, limit) == ("-1", -1)
    requires env == map[TagLimitVar := text]
    ensures Validate(c, env).verdict == Valid
    ensures Validate(c, env).config.imageLimit == limit
  {
    if limit == 0 {
      Strconv.AtoiItoa(0);
      assert Strconv.Itoa(0) == "0";
    } else {
      Strconv.AtoiItoa(-1);
      assert Strconv.Itoa(-1) == "-1";
    }
  }
}
