/** Container resource requirements (pkg/internal/containers/containers.go). */
module Containers {
  import opened Common

  /** A parsed quantity: one that `AsInt64` can give back, or any other. Go compares the structs,
      which also hold the scale and suffix the number was written with (`form`): "1k" and "1000"
      differ. */
  datatype Quantity = Whole(n: Int64, form: string) | Inexact(text: string)

  /** A number written out in full. */
  function Plain(n: Int64): Quantity { Whole(n, "") }

  datatype EnvVar = EnvVar(name: string, value: string)

  /** The parts of a container the webhook looks at. */
  datatype Container = Container(limits: map<string, Quantity>, requests: map<string, Quantity>, env: seq<EnvVar>)

  /** Limits and requests agree on every resource of the namespace. */
  predicate Agree(c: Container, ns: string) {
    && (forall r | r in c.requests && ns <= r :: r in c.limits && c.limits[r] == c.requests[r])
    && (forall r | r in c.limits && ns <= r :: r in c.requests)
  }

  predicate Acceptable(c: Container, ns: string) {
    Agree(c, ns) && forall r | r in c.limits && ns <= r :: c.limits[r].Whole?
  }

  /** The resources of the namespace and their numbers. */
  function Requested(c: Container, ns: string): map<string, Int64>
    requires Acceptable(c, ns)
  {
    map r | r in c.limits && ns <= r :: c.limits[r].n
  }

  const MISMATCH := "'limits' and 'requests' must be equal as extended resources cannot be overcommitted"

  /** The loop over the requests: each has an equal limit. */
  predicate RequestsLimited(c: Container, ns: string, names: set<string>) {
    forall k | k in names && k in c.requests && ns <= k :: k in c.limits && c.limits[k] == c.requests[k]
  }

  method CheckRequests(c: Container, ns: string) returns (ok: bool)
    ensures ok <==> RequestsLimited(c, ns, c.requests.Keys)
  {
    var todo := c.requests.Keys;
    while todo != {}
      invariant todo <= c.requests.Keys
      invariant RequestsLimited(c, ns, c.requests.Keys - todo)
      decreases todo
    {
      var k :| k in todo;
      todo := todo - {k};
      if ns <= k && (k !in c.limits || c.limits[k] != c.requests[k]) { return false; }
    }
    return true;
  }

  predicate LimitsFine(c: Container, ns: string, names: set<string>) {
    forall k | k in names && k in c.limits && ns <= k ::
      k in c.requests && c.requests[k] == c.limits[k] && c.limits[k].Whole?
  }

  method GetRequestedResources(c: Container, ns: string) returns (r: Result<map<string, Int64>>)
    ensures r.Ok? <==> Acceptable(c, ns)
    ensures r.Ok? ==> r.value == Requested(c, ns)
  {
    var limited := CheckRequests(c, ns);
    if !limited { return Err(MISMATCH); }
    var resources: map<string, Int64> := map[];
    var todo := c.limits.Keys;
    while todo != {}
      invariant todo <= c.limits.Keys
      invariant LimitsFine(c, ns, c.limits.Keys - todo)
      invariant resources == map k | k in c.limits && k !in todo && ns <= k && c.limits[k].Whole? :: c.limits[k].n
      decreases todo
    {
      var k :| k in todo;
      todo := todo - {k};
      if ns <= k {
        if k !in c.requests || c.requests[k] != c.limits[k] { return Err(MISMATCH); }
        if c.limits[k].Inexact? { return Err("resource quantity isn't of integral type"); }
        resources := resources[k := c.limits[k].n];
      }
    }
    return Ok(resources);
  }
}
