/** `WebConfig` of the `rest_service.config` package: the configured URL is
    the `FRONTEND_URL` variable alone; the same two local defaults. */
module ConfigWebConfig {
  import opened Wrappers
  import opened Text
  import OriginList

  const Defaults: seq<string> := ["http://localhost:5173", "http://localhost:3000"]

  /** The placeholder `${FRONTEND_URL:}`. */
  function FrontendUrl(env: Option<string>): (r: string)
    ensures env.Some? ==> r == env.value
    ensures env.None? ==> r == ""
  {
    env.GetOr("")
  }

  /** The origins `addCorsMappings` registers. */
  function AllowedOrigins(frontendUrl: Option<string>): (r: seq<string>)
    ensures frontendUrl.None? || IsBlank(frontendUrl.value) ==>
      r == ["http://localhost:5173", "http://localhost:3000"]
    ensures frontendUrl.Some? && !IsBlank(frontendUrl.value) ==> r == OriginList.SplitAtCommas(frontendUrl.value)
    ensures frontendUrl.Some? && !IsBlank(frontendUrl.value) && OriginList.NoComma(frontendUrl.value) ==>
      r == [frontendUrl.value]
    ensures forall k :: 0 <= k < |r| ==> OriginList.NoComma(r[k])
  {
    OriginList.AllowedOrigins(frontendUrl, Defaults)
  }

  /** Without the variable, the defaults apply. */
  lemma UnconfiguredGivesDefaults()
    ensures AllowedOrigins(Some(FrontendUrl(None))) == Defaults
  {
  }

  /** A variable listing origins with `", "` allows exactly those origins. */
  lemma ConfiguredList(os: seq<string>)
    requires |os| >= 1
    requires forall o :: o in os ==> OriginList.TidyOrigin(o)
    ensures AllowedOrigins(Some(FrontendUrl(Some(OriginList.JoinOrigins(os))))) == os
  {
    OriginList.AllowedOriginsOfJoin(os, Defaults);
  }
}
