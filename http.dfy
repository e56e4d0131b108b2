/** Stand-ins for the parts of Go's `net/http` that the CORS wrapper touches: the response
    writer's header collection and status, and an inner handler whose only observable
    effect here is that it was called. */
module Http {
  import opened Wrappers

  /** One header line: a name and a value. */
  type Header = (string, string)

  const StatusNoContent := 204

  const MethodOptions := "OPTIONS"

  /** `http.ResponseWriter`: the headers added so far, in order, and the status written
      (None while no status has been written). */
  class ResponseWriter {
    var header: seq<Header>
    var status: Option<int>

    constructor (initial: seq<Header>)
      ensures header == initial && status == None
    {
      header := initial;
      status := None;
    }

    /** `w.Header().Add(name, value)`: appends, never replaces. */
    method Add(name: string, value: string)
      modifies this
      ensures header == old(header) + [(name, value)]
      ensures status == old(status)
    {
      header := header + [(name, value)];
    }

    /** `w.WriteHeader(code)`: the first status written stays; a later call changes
        nothing. */
    method WriteHeader(code: int)
      modifies this
      ensures status == if old(status) == None then Some(code) else old(status)
      ensures header == old(header)
    {
      if status == None {
        status := Some(code);
      }
    }
  }

  /** An inner `http.Handler`. `calls` counts its invocations; `seenHeader` and
      `seenStatus` record the response as it was when the last call began. What it then
      does to the response is unknown, so its contract says nothing about `w` afterwards. */
  class Handler {
    var calls: nat
    ghost var seenHeader: seq<Header>
    ghost var seenStatus: Option<int>

    constructor ()
      ensures calls == 0
    {
      calls := 0;
      seenHeader := [];
      seenStatus := None;
    }

    /** `h.ServeHTTP(w, r)`; `requestMethod` is None for a nil request. */
    method ServeHTTP(w: ResponseWriter, requestMethod: Option<string>)
      modifies this, w
      ensures calls == old(calls) + 1
      ensures seenHeader == old(w.header) && seenStatus == old(w.status)
    {
      seenHeader := w.header;
      seenStatus := w.status;
      calls := calls + 1;
    }
  }
}
