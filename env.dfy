/**
 * The browser client's choice of API server (dev/src/client/env.ts): the
 * build's dev flag and the page's hostname, which the source reads from
 * `import.meta.env.DEV` and `location.hostname`, are parameters here.
 */
module Env {
  import opened Text

  datatype EnvVars = EnvVars(apiServerHost: string, apiServerPort: int)

  const ApiServerPort := 3000
  const DevHost := "localhost"
  const StagingApiHost := "api-staging.poc.epdndo.com"
  const ProductionApiHost := "api-production.poc.epdndo.com"

  /**
   * `getEnvVars`: the port is always 3000; a dev build talks to localhost
   * whatever the hostname; otherwise a hostname containing `staging` anywhere
   * selects the staging API and every other hostname the production API.
   */
  function GetEnvVars(isDev: bool, hostname: string): (r: EnvVars)
    ensures r.apiServerPort == 3000
    ensures isDev ==> r.apiServerHost == "localhost"
    ensures !isDev ==> (r.apiServerHost == "api-staging.poc.epdndo.com" <==> Occurs(hostname, "staging"))
    ensures !isDev ==> (r.apiServerHost == "api-production.poc.epdndo.com" <==> !Occurs(hostname, "staging"))
    ensures r.apiServerHost in {"localhost", "api-staging.poc.epdndo.com", "api-production.poc.epdndo.com"}
  {
    if isDev then
      EnvVars(DevHost, ApiServerPort)
    else if Contains(hostname, "staging") then
      EnvVars(StagingApiHost, ApiServerPort)
    else
      EnvVars(ProductionApiHost, ApiServerPort)
  }

  /** The staging front end, served at `staging.poc.epdndo.com`, talks to the staging API. */
  lemma StagingFrontEnd(hostname: string)
    requires hostname == "staging.poc.epdndo.com"
    ensures GetEnvVars(false, hostname).apiServerHost == "api-staging.poc.epdndo.com"
  {
    assert OccursAt(hostname, "staging", 0) by {
      assert hostname[..7] == "staging";
    }
  }

  /** The production front end, served at `production.poc.epdndo.com`, talks to the production API. */
  lemma ProductionFrontEnd(hostname: string)
    requires hostname == "production.poc.epdndo.com"
    ensures GetEnvVars(false, hostname).apiServerHost == "api-production.poc.epdndo.com"
  {
    assert "staging"[6] == 'g';
    AbsentChar(hostname, "staging", 'g');
  }
}
