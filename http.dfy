/**
 * The parts of Go's `net/http` that the request handler reads and writes:
 * header maps, the inbound request, the upstream response and the
 * client-facing response writer.
 */
module Http {
  import opened Wrappers

  /**
   * `http.Header`: each header name to its list of values. Names are kept
   * exactly as given; Go's canonical MIME key normalisation is not modelled.
   */
  type Header = map<string, seq<string>>

  /** The values stored under `name`, empty when the name is absent (a nil slice in Go). */
  function Values(h: Header, name: string): seq<string> {
    if name in h then h[name] else []
  }

  /** `Header.Add(name, value)`: appends `value` to the list stored under `name`. */
  function Added(h: Header, name: string, value: string): (r: Header)
    ensures r.Keys == h.Keys + {name}
    ensures r[name] == Values(h, name) + [value]
    ensures forall k :: k in h && k != name ==> r[k] == h[k]
  {
    h[name := Values(h, name) + [value]]
  }

  /**
   * The inbound request as the handler sees it: the method (`verb`), the raw
   * request-URI (`r.RequestURI`), the decoded path (`r.URL.Path`) and the headers.
   */
  datatype Request = Request(verb: string, requestURI: string, urlPath: string, header: Header)

  /** The upstream `*http.Response`; only its header map is modelled. */
  class Response {
    var header: Header

    constructor (header: Header)
      ensures this.header == header
    {
      this.header := header;
    }
  }

  /**
   * The client-facing `http.ResponseWriter`: its header map (`w.Header()`)
   * and the status code once one has been written.
   */
  class ResponseWriter {
    var header: Header
    var status: Option<int>

    constructor ()
      ensures header == map[] && status == None
    {
      header := map[];
      status := None;
    }

    /** `w.Header().Add(name, value)`. */
    method Add(name: string, value: string)
      modifies this
      ensures header == Added(old(header), name, value)
      ensures status == old(status)
    {
      header := Added(header, name, value);
    }

    /** `w.WriteHeader(code)`: only the first status written takes effect. */
    method WriteHeader(code: int)
      modifies this
      ensures header == old(header)
      ensures status == if old(status).None? then Some(code) else old(status)
    {
      if status.None? {
        status := Some(code);
      }
    }
  }
}
