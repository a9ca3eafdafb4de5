/** `WebConfig` of the `rest_service` package: the configured URL comes from
    the `frontend.url` property, else the `FRONTEND_URL` variable, else is
    empty; without one, two local development origins are allowed. */
module RestServiceWebConfig {
  import opened Wrappers
  import opened Text
  import OriginList

  const Defaults: seq<string> := ["http://localhost:5173", "http://localhost:3000"]

  /** The placeholder `${frontend.url:${FRONTEND_URL:}}`. */
  function FrontendUrl(property: Option<string>, env: Option<string>): (r: string)
    ensures property.Some? ==> r == property.value
    ensures property.None? && env.Some? ==> r == env.value
    ensures property.None? && env.None? ==> r == ""
  {
    if property.Some? then property.value else env.GetOr("")
  }

  /** The origins `addCorsMappings` registers. */
  function AllowedOrigins(frontendUrl: Option<string>): (r: seq<string>)
    ensures frontendUrl.None? || IsBlank(frontendUrl.value) ==>
      r == ["http://localhost:5173", "http://localhost:3000"]
    ensures frontendUrl.Some? && !IsBlank(frontendUrl.value) ==> r == OriginList.SplitAtCommas(frontendUrl.value)
    ensures frontendUrl.Some? && !IsBlank(frontendUrl.value) && OriginList.NoComma(frontendUrl.value) ==>
      r == [frontendUrl.value]
    ensures forall k :: 0 <= k < |r| ==> OriginList.NoComma(r[k])
  {
    OriginList.AllowedOrigins(frontendUrl, Defaults)
  }

  /** With neither the property nor the variable set, the defaults apply. */
  lemma UnconfiguredGivesDefaults()
    ensures AllowedOrigins(Some(FrontendUrl(None, None))) == Defaults
  {
  }

  /** A property listing origins with `", "` allows exactly those origins. */
  lemma ConfiguredList(os: seq<string>, env: Option<string>)
    requires |os| >= 1
    requires forall o :: o in os ==> OriginList.TidyOrigin(o)
    ensures AllowedOrigins(Some(FrontendUrl(Some(OriginList.JoinOrigins(os)), env))) == os
  {
    OriginList.AllowedOriginsOfJoin(os, Defaults);
  }
}
