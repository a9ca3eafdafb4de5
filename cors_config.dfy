/** `corsConfig` of the `rest_service.config` package: the same property
    fallback as the package-level `WebConfig`, but a single default origin,
    and the list is registered as origin patterns. */
module CorsConfig {
  import opened Wrappers
  import opened Text
  import OriginList

  const Defaults: seq<string> := ["http://localhost:5173"]

  /** The placeholder `${frontend.url:${FRONTEND_URL:}}`. */
  function FrontendUrl(property: Option<string>, env: Option<string>): (r: string)
    ensures property.Some? ==> r == property.value
    ensures property.None? && env.Some? ==> r == env.value
    ensures property.None? && env.None? ==> r == ""
  {
    if property.Some? then property.value else env.GetOr("")
  }

  /** The patterns `addCorsMappings` registers. */
  function AllowedOrigins(frontendUrl: Option<string>): (r: seq<string>)
    ensures frontendUrl.None? || IsBlank(frontendUrl.value) ==> r == ["http://localhost:5173"]
    ensures frontendUrl.Some? && !IsBlank(frontendUrl.value) ==> r == OriginList.SplitAtCommas(frontendUrl.value)
    ensures frontendUrl.Some? && !IsBlank(frontendUrl.value) && OriginList.NoComma(frontendUrl.value) ==>
      r == [frontendUrl.value]
    ensures forall k :: 0 <= k < |r| ==> OriginList.NoComma(r[k])
  {
    OriginList.AllowedOrigins(frontendUrl, Defaults)
  }

  /** With neither the property nor the variable set, the one default applies. */
  lemma UnconfiguredGivesDefault()
    ensures AllowedOrigins(Some(FrontendUrl(None, None))) == Defaults
  {
  }

  /** A property listing origins with `", "` allows exactly those origins. */
  lemma ConfiguredList(os: seq<string>, env: Option<string>)
    requires |os| >= 1
    requires forall o :: o in os ==> OriginList.TidyOrigin(o)
    ensures AllowedOrigins(Some(FrontendUrl(Some(OriginList.JoinOrigins(os)), env))) == os
  {
    OriginList.AllowedOriginsOfJoin(os, Defaults);
  }
}
