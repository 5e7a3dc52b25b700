/** The settings of a site, each under the flag of `ratline site add` that sets it (internal/cli/cmd_site.go),
    and which of them siteArgvFor passes on when a site is rebuilt (internal/cli/cmd_import.go). */
module SiteSettings {
  import opened NewStack

  /** What a flag is when it is not given. */
  function Default(flag: string): string {
    if flag == "--index" then "index.html"
    else if flag == "--listen" then "socket"
    else if flag == "--instances" then "1"
    else if flag == "--branch" then "main"
    else if flag == "--www-redirect" then "none"
    else ""
  }

  const RUNTIMES := {"static", "node", "bun", "python"}

  /** The runtimes each flag of `site add` for a setting is described as being for. */
  function OfferedTo(flag: string): set<string> {
    if flag in {"--root", "--spa", "--index"} then {"static"}
    else if flag == "--node" then {"node"}
    else if flag == "--bun" then {"bun"}
    else if flag in {"--entry", "--package-manager", "--listen", "--daemon", "--instances"} then {"node", "bun"}
    else if flag in {"--app-module", "--python", "--asgi", "--server", "--workers", "--requirements",
                     "--manage-py", "--static-url", "--static-dir"} then {"python"}
    else if flag in {"--www-redirect", "--repo", "--branch", "--start-command", "--install-command",
                     "--build-command", "--build-output", "--public", "--memory-max", "--cpu-quota",
                     "--client-max-body-size", "--proxy-buffering", "--proxy-read-timeout", "--hsts"} then RUNTIMES
    else {}
  }

  const SWITCHES: set<string> := {"--spa", "--asgi", "--hsts"}

  /** A number is its numeral, or nothing for zero; a switch is "true" or nothing. */
  type Settings = map<string, string>

  function Value(s: Settings, flag: string): string {
    if flag in s then s[flag] else ""
  }

  predicate WellTyped(s: Settings) {
    forall flag :: flag in SWITCHES ==> Value(s, flag) in {"", "true"}
  }

  /** The flags of a runtime, in the order they are appended. */
  function OfRuntime(runtime: string): seq<string> {
    if runtime == "static" then ["--root", "--index", "--spa"]
    else if runtime == "node" then ["--entry", "--node", "--package-manager", "--listen", "--instances"]
    else if runtime == "bun" then ["--entry", "--bun", "--package-manager", "--listen"]
    else if runtime == "python" then
      ["--app-module", "--python", "--server", "--requirements", "--manage-py", "--static-dir", "--static-url",
       "--asgi", "--workers"]
    else []
  }

  const OF_ALL: seq<string> :=
    ["--install-command", "--build-command", "--build-output", "--public", "--repo", "--branch", "--memory-max",
     "--cpu-quota", "--client-max-body-size", "--proxy-buffering", "--proxy-read-timeout", "--www-redirect"]

  /** What siteArgvFor appends where it has a value. */
  function Passed(runtime: string): seq<string> {
    OfRuntime(runtime) + OF_ALL
  }

  function AppendFlag(argv: seq<string>, flag: string, v: string): seq<string> {
    if flag !in SWITCHES then AppendIf(argv, flag, v) else if v == "" then argv else argv + [flag]
  }

  function Spoken(s: Settings, flags: seq<string>): seq<string> {
    if flags == [] then []
    else AppendFlag(Spoken(s, flags[..|flags| - 1]), flags[|flags| - 1], Value(s, flags[|flags| - 1]))
  }

  function Relaxations(relaxed: seq<string>): seq<string> {
    if relaxed == [] then [] else Relaxations(relaxed[..|relaxed| - 1]) + ["--relax", relaxed[|relaxed| - 1]]
  }
}
