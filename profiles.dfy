/** The per-service container configurations of `create_session` and the
    lookup that falls back to the `chrome` configuration. */
module Profiles {

  /** What the session manager hands to the runtime besides the fixed options:
      the image to run and its environment variables. */
  datatype ServiceConfig = ServiceConfig(image: string, environment: map<string, string>)

  const KasmImage: string := "kasmweb/chrome:1.15.0"

  /** The KasmVNC web port inside the container, published as "6901/tcp". */
  const KasmWebPort: nat := 6901

  const DefaultService: string := "chrome"

  const ServiceConfigs: map<string, ServiceConfig> := map[
    "replit" := ServiceConfig(KasmImage, map["VNC_PW" := "password", "KASM_URL" := "https://replit.com/~"]),
    "codesandbox" := ServiceConfig(KasmImage, map["VNC_PW" := "password", "KASM_URL" := "https://codesandbox.io"]),
    "chrome" := ServiceConfig(KasmImage, map["VNC_PW" := "password"])
  ]

  /** `service_configs.get(service, service_configs["chrome"])`. */
  function ResolveService(service: string): (c: ServiceConfig)
    ensures c in ServiceConfigs.Values
  {
    if service in ServiceConfigs then ServiceConfigs[service] else ServiceConfigs[DefaultService]
  }

  /** The three known names select their own entries, so each starts the
      browser on its own page; every other name gets the plain browser. */
  lemma ResolveKnownServices()
    ensures ResolveService("replit").environment["KASM_URL"] == "https://replit.com/~"
    ensures ResolveService("codesandbox").environment["KASM_URL"] == "https://codesandbox.io"
    ensures "KASM_URL" !in ResolveService("chrome").environment
  {
  }

  /** An unknown service name is not an error: it resolves to the `chrome` entry. */
  lemma ResolveUnknownService(service: string)
    requires service != "replit" && service != "codesandbox" && service != "chrome"
    ensures ResolveService(service) == ServiceConfigs["chrome"]
  {
  }

  /** Every resolved configuration runs the KasmVNC browser image and sets the VNC password. */
  lemma ResolveAlwaysKasm(service: string)
    ensures ResolveService(service).image == KasmImage
    ensures ResolveService(service).environment["VNC_PW"] == "password"
  {
  }
}
