/**
 * welcome.go: the JSON greeting of an application, `{"<name>": "Welcome",
 * "version": "<version>"}`, built once when the handler is made.
 */
module Welcome {

  /** The conventional mount point of the welcome handler. */
  const WelcomePath := "/welcome"

  /**
   * The response map of MakeWelcomeHandler, built by two assignments; when
   * the name is "version" itself the second one overwrites the greeting.
   * The returned handler encodes this same map for every request.
   */
  method MakeWelcomeHandler(name: string, version: string) returns (response: map<string, string>)
    ensures response.Keys == {name, "version"}
    ensures response["version"] == version
    ensures name != "version" ==> response[name] == "Welcome"
    ensures name == "version" ==> response == map["version" := version]
  {
    response := map[];
    response := response[name := "Welcome"];
    response := response["version" := version];
  }
}
