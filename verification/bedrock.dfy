/** The host-side vocabulary the plugin is written against: attribute
    tables, commands with a request and a response, raised errors, and the
    library helpers the handlers call, passed in as values. */
module Bedrock {
  import opened Wrappers
  import opened Text

  /** One attribute: the name as first written, and its value. */
  datatype Entry = Entry(name: string, value: string)

  /** An attribute table (STable): a map ordered by a case-insensitive
      comparison of names, so two names that differ only in ASCII letter
      case are one attribute. It is keyed here by the lower-cased name. */
  type STable = map<string, Entry>

  /** Reading an attribute (operator[] on a table): the value stored
      under any letter case of the name, or "" when there is none. */
  function Get(t: STable, name: string): (v: string)
    ensures Lower(name) !in t ==> v == ""
    ensures Lower(name) in t ==> v == t[Lower(name)].value
  {
    if Lower(name) in t then t[Lower(name)].value else ""
  }

  /** Writing an attribute (assignment through operator[]): replaces the
      value of the attribute with that name in any letter case, keeping
      its first spelling, or adds the attribute. */
  function Set(t: STable, name: string, value: string): (r: STable)
    ensures r.Keys == t.Keys + {Lower(name)}
    ensures Get(r, name) == value
    ensures forall k :: k in t && k != Lower(name) ==> r[k] == t[k]
  {
    var k := Lower(name);
    t[k := Entry(if k in t then t[k].name else name, value)]
  }

  /** The attribute `name` is present and spelled exactly `name`: the
      spelling a composer or the host writes out. */
  predicate Spelled(t: STable, name: string) {
    Lower(name) in t && t[Lower(name)].name == name
  }

  /** The spelling `name` has once written into `t`: the spelling already
      there, or `name` itself for a new attribute. */
  function WrittenSpelling(t: STable, name: string): string {
    if Lower(name) in t then t[Lower(name)].name else name
  }

  /** An attribute keeps the spelling of its first write: a later write
      under another letter case replaces only the value. */
  lemma SetKeepsFirstSpelling(t: STable, name: string, value: string)
    ensures Lower(name) in t ==> Set(t, name, value)[Lower(name)] == Entry(t[Lower(name)].name, value)
    ensures Lower(name) !in t ==> Set(t, name, value)[Lower(name)] == Entry(name, value)
  {
  }

  /** Writing the value an attribute already holds changes nothing. */
  lemma SetHeld(t: STable, name: string, value: string)
    requires Lower(name) in t && t[Lower(name)].value == value
    ensures Set(t, name, value) == t
  {
  }

  /** Names that differ only in letter case read the same attribute. */
  lemma GetIgnoresCase(t: STable, a: string, b: string)
    requires EqualsIgnoreCase(a, b)
    ensures Get(t, a) == Get(t, b)
  {
  }

  /** A signed 64-bit integer, the result type of calc64. */
  type Int64 = x: int | -0x8000_0000_0000_0000 <= x < 0x8000_0000_0000_0000

  /** What a command raises. `Thrown` carries the STHROW status line; the
      size check of the library raises an error about one attribute, whose
      exact text is the library's. */
  datatype Error = Thrown(status: string) | BadAttributeSize(attribute: string)

  /** The library helpers the handlers call: integer parsing of an
      attribute value and the JSON composers. */
  datatype Libstuff = Libstuff(
    calc64: string -> Int64,
    composeJsonObject: STable -> string,
    composeJsonArray: seq<string> -> string)

  /** The host's size bounds MAX_SIZE_SMALL and MAX_SIZE_QUERY. */
  datatype SizeLimits = SizeLimits(maxSizeSmall: nat, maxSizeQuery: nat)

  /** verifyAttributeSize: the attribute's size in bytes must lie in [min, max]. */
  function VerifyAttributeSize(request: STable, name: string, min: nat, max: nat): (r: Outcome<Error>)
    ensures r.Pass? <==> min <= ByteLength(Get(request, name)) <= max
    ensures r.Fail? ==> r.error == BadAttributeSize(name)
  {
    if min <= ByteLength(Get(request, name)) <= max then Pass else Fail(BadAttributeSize(name))
  }

  /** The disposition returned by the HelloWorld phases. */
  datatype CommandResult = Complete

  /** One command in flight: its method line and request are fixed, its
      response is filled in by the phases. */
  class Command {
    const methodLine: string
    const request: STable
    var response: STable

    constructor (methodLine: string, request: STable)
      ensures this.methodLine == methodLine && this.request == request
      ensures response == map[]
    {
      this.methodLine := methodLine;
      this.request := request;
      response := map[];
    }
  }
}
