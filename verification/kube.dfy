/** The local cluster's API, one map of objects per resource, and the service helpers of
    kube/common.go. */
module Kube {
  import opened Wrappers
  import opened GlobalStore
  import opened Controller

  datatype LocalService = LocalService(
    labels: map<string, string>,
    annotations: map<string, string>,
    ports: seq<ServicePort>,
    selector: map<string, string>,
    clusterIP: string)

  /** A ClusterIP (its address left to the server) or headless service without a selector. */
  function NewService(labels: map<string, string>, annotations: map<string, string>, ports: seq<ServicePort>,
                      headless: bool): LocalService {
    LocalService(labels, annotations, ports, map[], if headless then "None" else "")
  }

  /** The ports change and the selector goes; the cluster IP stays what it was. */
  function WithPorts(svc: LocalService, ports: seq<ServicePort>): LocalService {
    svc.(ports := ports, selector := map[])
  }

  predicate HasLabels(labels: map<string, string>, wanted: map<string, string>) {
    forall l :: l in wanted ==> l in labels && labels[l] == wanted[l]
  }

  /** A selector made of label=value requirements. */
  predicate MatchSelector(selector: map<string, string>, labels: map<string, string>) {
    HasLabels(labels, selector)
  }

  datatype ApiError = NotFound | AlreadyExists | OtherError

  class Api<T> {
    var objects: map<string, T>

    method Get(name: string, fails: bool) returns (r: Result<T, ApiError>)
      ensures r == if fails then Err(OtherError) else if name in objects then Ok(objects[name]) else Err(NotFound)
    {
      if fails {
        return Err(OtherError);
      } else if name in objects {
        return Ok(objects[name]);
      }
      return Err(NotFound);
    }

    method Create(name: string, obj: T, fault: Fault) returns (err: Option<ApiError>)
      modifies this
      ensures objects == if fault.Refused? || name in old(objects) then old(objects) else old(objects)[name := obj]
      ensures err.None? <==> fault.Fine? && name !in old(objects)
    {
      if fault.Refused? {
        return Some(OtherError);
      } else if name in objects {
        return Some(AlreadyExists);
      }
      objects := objects[name := obj];
      return if fault.Fine? then None else Some(OtherError);
    }

    method Update(name: string, obj: T, fault: Fault) returns (err: Option<ApiError>)
      modifies this
      ensures objects == if fault.Refused? || name !in old(objects) then old(objects) else old(objects)[name := obj]
      ensures err.None? <==> fault.Fine? && name in old(objects)
    {
      if fault.Refused? {
        return Some(OtherError);
      } else if name !in objects {
        return Some(NotFound);
      }
      objects := objects[name := obj];
      return if fault.Fine? then None else Some(OtherError);
    }

    method Delete(name: string, fault: Fault) returns (err: Option<ApiError>)
      modifies this
      ensures objects == if fault.Refused? then old(objects) else old(objects) - {name}
      ensures err == if !fault.Fine? then Some(OtherError) else if name !in old(objects) then Some(NotFound) else None
    {
      if fault.Refused? {
        return Some(OtherError);
      }
      var missing := name !in objects;
      objects := objects - {name};
      return if fault.LostReply? then Some(OtherError) else if missing then Some(NotFound) else None;
    }
  }
}
