/** Process configuration read from the environment (`configs/configs.go`).
    The environment is a map; an unset variable reads as the empty string,
    exactly as `os.Getenv` reports it. */
module Configs {
  import opened Decimal

  type Env = map<string, string>

  /** `os.Getenv`. */
  function Getenv(env: Env, key: string): string {
    if key in env then env[key] else ""
  }

  /** `getEnv`: the value, or the fallback when it is unset or empty. */
  function GetEnv(env: Env, key: string, fallback: string): (r: string)
    ensures (key !in env || env[key] == "") ==> r == fallback
    ensures key in env && env[key] != "" ==> r == env[key]
  {
    var val := Getenv(env, key);
    if |val| == 0 then fallback else val
  }

  /** `getBoolEnv`: the fallback when unset or empty, otherwise true exactly
      for the case-sensitive text "true". */
  function GetBoolEnv(env: Env, key: string, fallback: bool): (r: bool)
    ensures (key !in env || env[key] == "") ==> r == fallback
    ensures key in env && env[key] != "" ==> (r <==> env[key] == "true")
  {
    var val := Getenv(env, key);
    if |val| == 0 then fallback else val == "true"
  }

  /** `getIntEnv`: the fallback when unset, empty or not accepted by
      `ParseUint(val, 10, 32)`; otherwise the number the digits denote. */
  function GetIntEnv(env: Env, key: string, fallback: int): (r: int)
    ensures (key !in env || !IsUint32(env[key])) ==> r == fallback
    ensures key in env && IsUint32(env[key]) ==> r == Value(env[key]) && 0 <= r <= MaxUint32
  {
    var val := Getenv(env, key);
    if |val| == 0 then fallback
    else match ParseUint32(val)
      case Ok(n) => n
      case Fail(_) => fallback
  }

  /** The package-level variables of `configs.go`, in declaration order. */
  datatype Config = Config(
    port: string,
    siteUrl: string,
    cardImgSelector: string,
    minCardsPerPage: int,
    timeout: int,
    debug: bool)

  /** The variables as the program sees them once the package is initialised. */
  function Load(env: Env): (r: Config)
    ensures r.port == if "PORT" in env && env["PORT"] != "" then env["PORT"] else "3000"
    ensures r.siteUrl == if "SITE_URL" in env && env["SITE_URL"] != "" then env["SITE_URL"]
                         else "https://icanhas.cheezburger.com"
    ensures r.cardImgSelector == if "CARD_IMG_SELECTOR" in env && env["CARD_IMG_SELECTOR"] != ""
                                 then env["CARD_IMG_SELECTOR"] else ".mu-post.mu-thumbnail > img"
    ensures r.minCardsPerPage == if "MIN_CARDS_PER_PAGE" in env && IsUint32(env["MIN_CARDS_PER_PAGE"])
                                 then Value(env["MIN_CARDS_PER_PAGE"]) else 10
    ensures r.timeout == if "TIMEOUT" in env && IsUint32(env["TIMEOUT"]) then Value(env["TIMEOUT"]) else 600
    ensures r.debug <==> "DEBUG" in env && env["DEBUG"] == "true"
    ensures 0 <= r.minCardsPerPage <= MaxUint32 && 0 <= r.timeout <= MaxUint32
  {
    Config(
      GetEnv(env, "PORT", "3000"),
      GetEnv(env, "SITE_URL", "https://icanhas.cheezburger.com"),
      GetEnv(env, "CARD_IMG_SELECTOR", ".mu-post.mu-thumbnail > img"),
      GetIntEnv(env, "MIN_CARDS_PER_PAGE", 10),
      GetIntEnv(env, "TIMEOUT", 600),
      GetBoolEnv(env, "DEBUG", false))
  }

  /** With nothing set (or everything set to the empty string) the defaults apply. */
  lemma Defaults(env: Env)
    requires forall k :: k in env ==> env[k] == ""
    ensures Load(env) == Config("3000", "https://icanhas.cheezburger.com",
                                ".mu-post.mu-thumbnail > img", 10, 600, false)
  {
  }

  /** A numeric variable that is set but malformed is ignored, never an error. */
  lemma MalformedNumberFallsBack(env: Env)
    requires "TIMEOUT" in env && |env["TIMEOUT"]| > 0 && !IsDigit(env["TIMEOUT"][0])
    ensures Load(env).timeout == 600
  {
  }
}
