/** The CORS `origin` callback (index.ts): which browser origins may call the
    API. `FRONTEND_URL` comes from the environment and is a parameter here. */
module Cors {
  import opened Wrappers
  import opened Strings

  const ViteDevOrigin := "http://localhost:5173"
  const AltDevOrigin := "http://localhost:3000"
  const PreviewSuffix := ".vercel.app"
  const RejectMessage := "Not allowed by CORS"

  /** `callback(null, true)` or `callback(new Error(...))`. */
  datatype Decision = Allow | Reject(message: string)

  /** `allowedOrigins`: the configured frontend (possibly unset) and the two
      local development servers. */
  function AllowedOrigins(frontendUrl: Option<string>): seq<Option<string>> {
    [frontendUrl, Some(ViteDevOrigin), Some(AltDevOrigin)]
  }

  /** The `origin` callback. An absent or empty origin is allowed first, then a
      listed origin, then any Vercel preview deployment. */
  function CheckOrigin(origin: Option<string>, frontendUrl: Option<string>): (d: Decision)
    ensures d.Allow? <==>
              origin.None? || origin.value == "" ||
              origin.value == ViteDevOrigin || origin.value == AltDevOrigin ||
              frontendUrl == origin ||
              EndsWith(origin.value, PreviewSuffix)
    ensures d.Reject? ==> d.message == RejectMessage
  {
    if origin.None? || origin.value == "" then Allow
    else if origin in AllowedOrigins(frontendUrl) then Allow
    else if EndsWith(origin.value, PreviewSuffix) then Allow
    else Reject(RejectMessage)
  }

  /** The development servers are allowed whatever the frontend setting. */
  lemma DevOriginsAllowed(frontendUrl: Option<string>)
    ensures CheckOrigin(Some(ViteDevOrigin), frontendUrl) == Allow
    ensures CheckOrigin(Some(AltDevOrigin), frontendUrl) == Allow
  {
  }

  /** Every host name under vercel.app is allowed. */
  lemma PreviewDeploymentsAllowed(host: string, frontendUrl: Option<string>)
    ensures CheckOrigin(Some("https://" + host + PreviewSuffix), frontendUrl) == Allow
  {
    EndsWithAppend("https://" + host, PreviewSuffix);
    assert "https://" + host + PreviewSuffix == ("https://" + host) + PreviewSuffix;
  }

  /** An origin that merely contains "vercel.app" without the dot before it is refused. */
  lemma LookalikeRefused()
    ensures CheckOrigin(Some("https://evilvercel.app"), None) == Reject(RejectMessage)
  {
    assert "https://evilvercel.app"[|"https://evilvercel.app"| - |PreviewSuffix|..] == "lvercel.app";
  }
}
