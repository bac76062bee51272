/**
 * The kind of filter the file list offers: its spelling in the selector and the
 * placeholder the text field shows for it.
 */
module FilterInput {
  import opened Wrappers

  datatype FilterType = Substring | Extension | Regex

  /** `Display`: the variant's own name, used as the selector's option value. */
  function ToString(t: FilterType): string {
    match t
    case Substring => "Substring"
    case Extension => "Extension"
    case Regex => "Regex"
  }

  /** `FromStr`: exactly the three option values parse. */
  function FromStr(s: string): Result<FilterType, string> {
    if s == "Substring" then Ok(Substring)
    else if s == "Extension" then Ok(Extension)
    else if s == "Regex" then Ok(Regex)
    else Err("Unknown filter type: " + s)
  }

  /** The hint inside the empty filter field. */
  function Placeholder(t: FilterType): string {
    match t
    case Substring => "Search by text..."
    case Extension => "Filter by extension (e.g. .rs)"
    case Regex => "Search with regex (e.g. .*\\.rs$)"
  }

  lemma FromStrOfToString(t: FilterType)
    ensures FromStr(ToString(t)) == Ok(t)
  {
  }

  /** Whatever parses is the name of what it parses to; everything else is an error naming the input. */
  lemma FromStrAccepts(s: string)
    ensures FromStr(s).Ok? ==> ToString(FromStr(s).value) == s
    ensures FromStr(s).Err? <==> forall t: FilterType :: ToString(t) != s
    ensures FromStr(s).Err? ==> FromStr(s).error == "Unknown filter type: " + s
  {
    if FromStr(s).Err? {
      forall t: FilterType ensures ToString(t) != s {
        FromStrOfToString(t);
      }
    }
  }

  /** The placeholder tells the user which filter is active. */
  lemma PlaceholderIdentifiesFilter(t1: FilterType, t2: FilterType)
    ensures Placeholder(t1) == Placeholder(t2) ==> t1 == t2
  {
    if Placeholder(t1) == Placeholder(t2) {
      assert Placeholder(t1)[0] == Placeholder(t2)[0];
      assert Placeholder(t1)[7] == Placeholder(t2)[7];
    }
  }

  /** The regex hint shows a single backslash before the dot. */
  lemma RegexPlaceholderSpelling()
    ensures |Placeholder(Regex)| == 32
    ensures Placeholder(Regex)[26] == '\\' && Placeholder(Regex)[27] == '.'
  {
  }
}
