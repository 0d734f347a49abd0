/**
 * The header plumbing around token issuance: `removeProxyTokenHeaders`, which
 * moves the reserved headers out of the upstream response, and `copyHeaders`,
 * which relays the rest to the client.
 */
module TokenHeaders {
  import opened Strings
  import opened Http
  import opened Config

  /** A header name is reserved when, lower-cased, it starts with the lower-cased token prefix. */
  predicate IsReserved(name: string) {
    HasPrefix(ToLower(name), ToLower(TokenHeaderPrefix))
  }

  /** Every name that starts with the prefix exactly as written is reserved. */
  lemma PrefixedIsReserved(name: string)
    requires HasPrefix(name, TokenHeaderPrefix)
    ensures IsReserved(name)
  {
    LowerKeepsPrefix(TokenHeaderPrefix, name);
  }

  /** The reserved headers of `h`, with their values. */
  function Reserved(h: Header): (moved: Header) {
    map k | k in h && IsReserved(k) :: h[k]
  }

  /** The headers of `h` that are not reserved, with their values. */
  function Unreserved(h: Header): (kept: Header) {
    map k | k in h && !IsReserved(k) :: h[k]
  }

  /**
   * The two parts partition the header map: disjoint, together the whole map,
   * values untouched, every reserved name on one side and none on the other.
   */
  lemma Partition(h: Header)
    ensures Reserved(h).Keys !! Unreserved(h).Keys
    ensures Reserved(h) + Unreserved(h) == h
    ensures forall k :: k in Reserved(h) ==> IsReserved(k) && Reserved(h)[k] == h[k]
    ensures forall k :: k in Unreserved(h) ==> !IsReserved(k) && Unreserved(h)[k] == h[k]
    ensures forall k :: k in h ==> k in Reserved(h) || k in Unreserved(h)
  {
  }

  /**
   * `removeProxyTokenHeaders`: walks the upstream headers, moving each reserved
   * one into a new map and deleting it from the response; `ok` reports that at
   * least one was moved.
   */
  method RemoveProxyTokenHeaders(r: Response) returns (headers: Header, ok: bool)
    modifies r
    ensures headers == Reserved(old(r.header))
    ensures r.header == Unreserved(old(r.header))
    ensures ok == (|headers| > 0)
    ensures ok <==> exists k :: k in old(r.header) && IsReserved(k)
  {
    ghost var original := r.header;
    headers := map[];
    var todo := r.header.Keys;
    while todo != {}
      invariant todo <= original.Keys
      invariant forall k :: k in headers <==> k in original && k !in todo && IsReserved(k)
      invariant forall k :: k in headers ==> headers[k] == original[k]
      invariant forall k :: k in r.header <==> k in original && (k in todo || !IsReserved(k))
      invariant forall k :: k in r.header ==> r.header[k] == original[k]
      decreases todo
    {
      var k :| k in todo;
      if HasPrefix(ToLower(k), ToLower(TokenHeaderPrefix)) {
        headers := headers[k := r.header[k]];
        r.header := r.header - {k};
      }
      todo := todo - {k};
    }
    assert headers == Reserved(original);
    assert r.header == Unreserved(original);
    ok := |headers| > 0;
    if ok {
      var k :| k in headers;
    } else {
      assert headers == map[];
    }
  }

  /**
   * The writer's headers after every value of `src` has been added to `dst`
   * in order: each list of `dst` followed by the list `src` holds under the
   * same name. A name of `src` with no values adds nothing.
   */
  function Appended(dst: Header, src: Header): (relayed: Header) {
    map k | k in dst.Keys + src.Keys && (k in dst || src[k] != []) :: Values(dst, k) + Values(src, k)
  }

  /**
   * What relaying does to the writer's existing headers: every list keeps its
   * old values at the front, and a name the source does not carry is left
   * exactly as it was.
   */
  lemma AppendedKeepsExisting(dst: Header, src: Header)
    ensures dst.Keys <= Appended(dst, src).Keys
    ensures forall k :: k in dst ==> dst[k] <= Appended(dst, src)[k]
    ensures forall k :: k in dst && k !in src ==> Appended(dst, src)[k] == dst[k]
  {
  }

  /** Every value of the source is relayed, after the writer's values, under its own name. */
  lemma AppendedRelaysSource(dst: Header, src: Header)
    ensures forall k :: k in src && src[k] != [] ==> k in Appended(dst, src)
    ensures forall k :: k in src && k in Appended(dst, src) ==>
      Appended(dst, src)[k][|Values(dst, k)|..] == src[k]
    ensures forall k :: k in Appended(dst, src) ==> k in dst || k in src
  {
  }

  /**
   * `copyHeaders`: for each upstream header name, adds each of its values to
   * the writer's headers in order.
   */
  method CopyHeaders(w: ResponseWriter, src: Header)
    modifies w
    ensures w.header == Appended(old(w.header), src)
    ensures w.status == old(w.status)
  {
    ghost var original := w.header;
    var todo := src.Keys;
    while todo != {}
      invariant todo <= src.Keys
      invariant w.status == old(w.status)
      invariant forall x :: x in w.header <==>
        x in original || (x in src && x !in todo && src[x] != [])
      invariant forall x :: x in w.header ==>
        w.header[x] == Values(original, x) + (if x in src && x !in todo then src[x] else [])
      decreases todo
    {
      var k :| k in todo;
      AddValues(w, k, src[k]);
      todo := todo - {k};
    }
    assert forall x :: x in w.header ==> w.header[x] == Appended(original, src)[x];
  }

  /** The inner loop of `copyHeaders`: adds the values of one name, in order. */
  method AddValues(w: ResponseWriter, name: string, values: seq<string>)
    modifies w
    ensures w.header == if values == [] then old(w.header)
      else old(w.header)[name := Values(old(w.header), name) + values]
    ensures w.status == old(w.status)
  {
    ghost var start := w.header;
    for j := 0 to |values|
      invariant w.status == old(w.status)
      invariant w.header == if j == 0 then start
        else start[name := Values(start, name) + values[..j]]
    {
      ghost var before := Values(w.header, name);
      assert before == Values(start, name) + values[..j];
      w.Add(name, values[j]);
      assert before + [values[j]] == Values(start, name) + values[..j + 1] by {
        assert values[..j + 1] == values[..j] + [values[j]];
      }
      assert w.header == start[name := Values(start, name) + values[..j + 1]];
    }
    assert values[..|values|] == values;
  }
}
