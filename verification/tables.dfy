/** The services' static dicts from language code to text. Each is written
    as the blocks of consecutive entries of its Python literal; a lookup
    scans the blocks from the last one back, so a later entry for a key
    wins, as it does when Python builds a dict from a literal. */
module Tables {
  import opened Results
  import opened Text

  type Table = seq<map<string, string>>

  /** Python's `d.get(key)` on the dict the blocks build. */
  function Get(t: Table, key: string): Option<string>
  {
    if t == [] then None
    else if key in t[|t| - 1] then Some(t[|t| - 1][key])
    else Get(t[..|t| - 1], key)
  }

  /** Python's `key in d`. */
  predicate Has(t: Table, key: string) {
    Get(t, key).Some?
  }

  /** The dict the literal builds: each block's entries override those of
      the blocks before it. */
  function Dict(t: Table): (d: map<string, string>)
    ensures forall k :: k in d <==> exists i :: 0 <= i < |t| && k in t[i]
  {
    if t == [] then map[] else Dict(t[..|t| - 1]) + t[|t| - 1]
  }

  /** Scanning the blocks finds exactly what the built dict holds. */
  lemma {:induction false} GetAgreesWithDict(t: Table, key: string)
    ensures Has(t, key) <==> key in Dict(t)
    ensures Has(t, key) ==> Get(t, key).value == Dict(t)[key]
  {
    if t != [] {
      GetAgreesWithDict(t[..|t| - 1], key);
    }
  }

  /** A key the lookup finds is in one of the blocks. */
  lemma InSomeBlock(t: Table, key: string)
    requires Has(t, key)
    ensures exists i :: 0 <= i < |t| && key in t[i]
  {
    GetAgreesWithDict(t, key);
  }

  /** A key in any block is found. */
  lemma FoundInBlock(t: Table, i: int, key: string)
    requires 0 <= i < |t| && key in t[i]
    ensures Has(t, key)
  {
    GetAgreesWithDict(t, key);
  }

  /** The entry in the last block holding a key is the one found: a later
      entry replaces an earlier one. */
  lemma {:induction false} LastEntryWins(t: Table, i: int, key: string)
    requires 0 <= i < |t| && key in t[i]
    requires forall j :: i < j < |t| ==> key !in t[j]
    ensures Get(t, key) == Some(t[i][key])
  {
    if i < |t| - 1 {
      LastEntryWins(t[..|t| - 1], i, key);
    }
  }

  /** Python's `d.get(code, code.upper())`, the name lookup both services
      use. */
  function GetOrUpper(t: Table, code: string): string {
    match Get(t, code)
    case Some(value) => value
    case None => Upper(code)
  }

  /** The lookup against the built dict: its entry when it has one, the
      upper-cased code otherwise. */
  lemma GetOrUpperFromDict(t: Table, code: string)
    ensures code in Dict(t) ==> GetOrUpper(t, code) == Dict(t)[code]
    ensures code !in Dict(t) ==> GetOrUpper(t, code) == Upper(code)
  {
    GetAgreesWithDict(t, code);
  }
}
