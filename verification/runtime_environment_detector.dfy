/** The Kubernetes detection heuristic, with the process environment and
    the secrets-directory check passed in. */
module RuntimeEnvironmentDetector {
  import opened Common
  import opened Text

  /** What the detector sees of the process: the environment variable names
      (`None` when `getenv()` does not give an array) and whether the
      Kubernetes secrets path (by default `/var/run/secrets/kubernetes.io`)
      exists; only its existence is ever checked. */
  datatype Environment = Environment(variableNames: Option<seq<string>>, secretsPathExists: bool)

  /** The prefix that marks a variable as set by Kubernetes. */
  const KubernetesPrefix: string := "KUBERNETES_"

  /** Some variable name starts with `KUBERNETES_` (case-sensitive; values
      are never looked at). */
  ghost predicate HasKubernetesVariable(names: seq<string>)
  {
    exists i | 0 <= i < |names| :: StartsWith(names[i], KubernetesPrefix)
  }

  /** The property the detector decides. */
  ghost predicate InsideKubernetes(env: Environment)
  {
    env.variableNames.Some? && HasKubernetesVariable(env.variableNames.value) && env.secretsPathExists
  }

  /** `hasKubernetesEnvironmentVariables`: scans the names in order and
      stops at the first one with the Kubernetes prefix. */
  method HasKubernetesEnvironmentVariables(variableNames: Option<seq<string>>) returns (found: bool)
    ensures found <==> variableNames.Some? && HasKubernetesVariable(variableNames.value)
  {
    if variableNames.None? {
      return false;
    }
    var names := variableNames.value;
    var i := 0;
    while i < |names|
      invariant 0 <= i <= |names|
      invariant forall j | 0 <= j < i :: !StartsWith(names[j], KubernetesPrefix)
    {
      if StartsWith(names[i], KubernetesPrefix) {
        return true;
      }
      i := i + 1;
    }
    return false;
  }

  /** `isRunningInsideKubernetesContainer`: a Kubernetes variable is set and
      the secrets path exists. */
  method IsRunningInsideKubernetesContainer(env: Environment) returns (inside: bool)
    ensures inside <==> InsideKubernetes(env)
    // either condition alone is not enough
    ensures !env.secretsPathExists ==> !inside
    ensures env.variableNames.None? ==> !inside
  {
    var hasVariables := HasKubernetesEnvironmentVariables(env.variableNames);
    inside := hasVariables && env.secretsPathExists;
  }
}
