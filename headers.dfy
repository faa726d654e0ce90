/**
 * Request headers as `net/http`'s `Header` keeps them: each name maps to a
 * list of values; `Get` reads the first value and `Add` appends one.
 * Header names are compared as written (key canonicalisation is not
 * modelled).
 */
module HttpHeaders {

  type HeaderMap = map<string, seq<string>>

  /** One header value to add under a name. */
  datatype Header = Header(name: string, value: string)

  /** `Header.Get`: the first value under `name`, or "" when there is none. */
  function Get(h: HeaderMap, name: string): (v: string)
    ensures Values(h, name) != [] ==> v == Values(h, name)[0]
    ensures Values(h, name) == [] ==> v == ""
  {
    if name in h && |h[name]| > 0 then h[name][0] else ""
  }

  /** The values under `name`, none when the name is absent. */
  function Values(h: HeaderMap, name: string): seq<string>
  {
    if name in h then h[name] else []
  }

  /** `Header.Add`: `value` goes after the values already under `name`. */
  function Add(h: HeaderMap, name: string, value: string): (h': HeaderMap)
    ensures Values(h', name) == Values(h, name) + [value]
    ensures forall n :: n != name ==> Values(h', n) == Values(h, n)
  {
    h[name := Values(h, name) + [value]]
  }

  /** The pairs added in order, one `Add` call each. */
  function AddAll(h: HeaderMap, added: seq<Header>): (h': HeaderMap)
    ensures forall n :: Values(h, n) <= Values(h', n)
    ensures forall n :: |Values(h', n)| == |Values(h, n)| + |AddedUnder(added, n)|
    decreases |added|
  {
    if added == [] then h
    else AddAll(Add(h, added[0].name, added[0].value), added[1..])
  }

  /** The values in `added` filed under `name`, in order. */
  function AddedUnder(added: seq<Header>, name: string): seq<string>
  {
    if added == [] then []
    else (if added[0].name == name then [added[0].value] else []) + AddedUnder(added[1..], name)
  }

  /** After the additions, each name holds its old values followed by the new ones. */
  lemma {:induction false} AddAllValues(h: HeaderMap, added: seq<Header>, name: string)
    ensures Values(AddAll(h, added), name) == Values(h, name) + AddedUnder(added, name)
    decreases |added|
  {
    if added != [] {
      var h1 := Add(h, added[0].name, added[0].value);
      AddAllValues(h1, added[1..], name);
    }
  }

  /**
   * A value the client already sent under a name is what `Get` still reads
   * after the additions: an added value never displaces it.
   */
  lemma ClientValueStaysFirst(h: HeaderMap, added: seq<Header>, name: string)
    requires |Values(h, name)| > 0
    ensures Get(AddAll(h, added), name) == Get(h, name)
  {
    AddAllValues(h, added, name);
  }

  /** When the client sent nothing under a name, `Get` reads the first value added under it. */
  lemma FirstAddedIsRead(h: HeaderMap, added: seq<Header>, name: string)
    requires Values(h, name) == []
    requires |AddedUnder(added, name)| > 0
    ensures Get(AddAll(h, added), name) == AddedUnder(added, name)[0]
  {
    AddAllValues(h, added, name);
  }
}
