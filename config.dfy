/** The API's settings: how the `ALLOWED_ORIGINS` environment value becomes
    the list of origins the CORS middleware accepts. */
module Config {
  import opened Wrappers
  import opened Text

  /** The origin used when `ALLOWED_ORIGINS` is unset or empty. */
  const DEFAULT_ORIGIN: string := "http://localhost:3000"

  /** A value `json.loads` can produce, as far as the origin list looks at
      it: its truthiness and its `str()`.  Numbers and nested containers
      carry the text Python's `str()` gives for them. */
  datatype JsonValue =
    | JNull
    | JBool(b: bool)
    | JNumber(text: string, isZero: bool)
    | JString(s: string)
    | JContainer(size: nat, text: string)

  /** Python truthiness: `None`, `False`, zero, `""` and empty containers are false. */
  predicate Truthy(x: JsonValue)
    ensures Truthy(x) ==> x != JNull && x != JBool(false)
    ensures x.JString? ==> (Truthy(x) <==> x.s != "")
  {
    match x
    case JNull => false
    case JBool(b) => b
    case JNumber(_, isZero) => !isZero
    case JString(s) => s != ""
    case JContainer(size, _) => size > 0
  }

  /** Python's `str(x)`: a string is itself, without quotes. */
  function PyStr(x: JsonValue): (r: string)
    ensures x.JString? ==> r == x.s
    ensures x.JNull? ==> r == "None"
    ensures x.JBool? ==> r == (if x.b then "True" else "False")
  {
    match x
    case JNull => "None"
    case JBool(b) => if b then "True" else "False"
    case JNumber(text, _) => text
    case JString(s) => s
    case JContainer(_, text) => text
  }

  /** What `json.loads` does with a text: raises, returns something other
      than a list, or returns a list. */
  datatype JsonParse = Malformed | NotList | List(items: seq<JsonValue>)

  /** A fact about `json.loads` the lemmas below rely on: a text with no
      white space at its edges that decodes to a list begins with `[`. */
  ghost predicate ListsStartWithBracket(loads: string -> JsonParse) {
    forall t :: NoEdgeSpace(t, Python) && loads(t).List? ==> t != [] && t[0] == '['
  }

  /** `[str(x).strip() for x in parsed if x]`. */
  function JsonOrigins(items: seq<JsonValue>): (origins: seq<string>)
    ensures |origins| <= |items|
    ensures forall i :: 0 <= i < |origins| ==> NoEdgeSpace(origins[i], Python)
  {
    if items == [] then []
    else
      var rest := JsonOrigins(items[1..]);
      if Truthy(items[0]) then [Trim(PyStr(items[0]), Python)] + rest else rest
  }

  /** `[part.strip() for part in parts if part.strip()]`. */
  function StrippedParts(parts: seq<string>): (origins: seq<string>)
    ensures |origins| <= |parts|
    ensures forall i :: 0 <= i < |origins| ==> origins[i] != "" && NoEdgeSpace(origins[i], Python)
  {
    if parts == [] then []
    else
      var rest := StrippedParts(parts[1..]);
      var p := Trim(parts[0], Python);
      if p != "" then [p] + rest else rest
  }

  /** The comma-separated fallback: at most one origin per comma-separated
      piece, each non-empty and with clean edges. */
  function CommaOrigins(raw: string): (origins: seq<string>)
    ensures |origins| <= Occurrences(raw, ',') + 1
    ensures forall i :: 0 <= i < |origins| ==> origins[i] != "" && NoEdgeSpace(origins[i], Python)
  {
    SplitCount(raw, ',');
    StrippedParts(Split(raw, ','))
  }

  /** `Settings.allowed_origins`; `loads` stands for `json.loads`. */
  function AllowedOrigins(env: Option<string>, loads: string -> JsonParse): (origins: seq<string>)
    ensures env == None || env == Some("") ==> origins == [DEFAULT_ORIGIN]
    ensures forall i :: 0 <= i < |origins| ==> NoEdgeSpace(origins[i], Python)
  {
    if env == None || env == Some("") then [DEFAULT_ORIGIN]
    else
      var raw := Trim(env.value, Python);
      match loads(raw)
      case List(items) => JsonOrigins(items)
      case _ => CommaOrigins(raw)
  }

  /** A value that is only white space is not "empty": it yields no origins
      at all rather than the default. */
  lemma BlankGivesNoOrigins(s: string, loads: string -> JsonParse)
    requires s != "" && AllSpace(s, Python)
    requires ListsStartWithBracket(loads)
    ensures AllowedOrigins(Some(s), loads) == []
  {
    TrimEmptyIffBlank(s, Python);
    assert !loads("").List?;
    assert Split("", ',') == [""];
    assert Trim("", Python) == "" by { TrimEmptyIffBlank("", Python); }
  }

  /** A value that does not decode to a list takes the comma path: its
      origins are the trimmed, non-empty comma-separated pieces. */
  lemma NonListUsesCommas(s: string, loads: string -> JsonParse)
    requires s != "" && !loads(Trim(s, Python)).List?
    ensures AllowedOrigins(Some(s), loads) == StrippedParts(Split(Trim(s, Python), ','))
  {
  }

  /** A value that decodes to a list takes the list path. */
  lemma ListUsesJson(s: string, loads: string -> JsonParse)
    requires s != "" && loads(Trim(s, Python)).List?
    ensures AllowedOrigins(Some(s), loads) == JsonOrigins(loads(Trim(s, Python)).items)
  {
  }

  /** Comma-path origins are non-empty, carry no white space at their
      edges, contain no comma, and are at most as many as the pieces. */
  lemma CommaOriginsShape(raw: string)
    ensures |CommaOrigins(raw)| <= Occurrences(raw, ',') + 1
    ensures forall i :: 0 <= i < |CommaOrigins(raw)| ==>
              CommaOrigins(raw)[i] != "" && NoEdgeSpace(CommaOrigins(raw)[i], Python)
              && ',' !in CommaOrigins(raw)[i]
  {
    SplitCount(raw, ',');
    StrippedPartsAvoid(Split(raw, ','), ',');
  }

  /** A character absent from every piece is absent from every origin. */
  lemma {:induction false} StrippedPartsAvoid(parts: seq<string>, c: char)
    requires forall i :: 0 <= i < |parts| ==> c !in parts[i]
    ensures forall i :: 0 <= i < |StrippedParts(parts)| ==> c !in StrippedParts(parts)[i]
  {
    if parts != [] {
      StrippedPartsAvoid(parts[1..], c);
      TrimKeepsCharacters(parts[0], c, Python);
    }
  }

  /** The pieces are processed in order: stripping a concatenation is
      concatenating the stripped halves. */
  lemma {:induction false} StrippedPartsAppend(a: seq<string>, b: seq<string>)
    ensures StrippedParts(a + b) == StrippedParts(a) + StrippedParts(b)
  {
    if a == [] {
      assert a + b == b;
    } else {
      assert (a + b)[0] == a[0];
      assert (a + b)[1..] == a[1..] + b;
      StrippedPartsAppend(a[1..], b);
    }
  }

  /** An origin comes out exactly when some piece strips to it and it is not empty. */
  lemma {:induction false} StrippedPartsMembership(parts: seq<string>, o: string)
    ensures o in StrippedParts(parts) <==> o != "" && exists i :: 0 <= i < |parts| && Trim(parts[i], Python) == o
  {
    if parts != [] {
      StrippedPartsMembership(parts[1..], o);
      if exists i :: 0 <= i < |parts| && Trim(parts[i], Python) == o {
        var i :| 0 <= i < |parts| && Trim(parts[i], Python) == o;
        if i > 0 { assert Trim(parts[1..][i - 1], Python) == o; }
      }
      if exists i :: 0 <= i < |parts[1..]| && Trim(parts[1..][i], Python) == o {
        var i :| 0 <= i < |parts[1..]| && Trim(parts[1..][i], Python) == o;
        assert Trim(parts[i + 1], Python) == o;
      }
    }
  }

  /** Pieces that are already clean pass through unchanged. */
  lemma {:induction false} StrippedPartsOfClean(parts: seq<string>)
    requires forall i :: 0 <= i < |parts| ==> parts[i] != "" && NoEdgeSpace(parts[i], Python)
    ensures StrippedParts(parts) == parts
  {
    if parts != [] {
      StrippedPartsOfClean(parts[1..]);
      TrimOfClean(parts[0], Python);
    }
  }

  /** The list path keeps list order: decoding a concatenation is
      concatenating the decoded halves. */
  lemma {:induction false} JsonOriginsAppend(a: seq<JsonValue>, b: seq<JsonValue>)
    ensures JsonOrigins(a + b) == JsonOrigins(a) + JsonOrigins(b)
  {
    if a == [] {
      assert a + b == b;
    } else {
      assert (a + b)[0] == a[0];
      assert (a + b)[1..] == a[1..] + b;
      JsonOriginsAppend(a[1..], b);
    }
  }

  /** A list of clean, non-empty strings decodes to exactly those strings. */
  lemma {:induction false} JsonOriginsOfStrings(items: seq<JsonValue>, origins: seq<string>)
    requires |items| == |origins|
    requires forall i :: 0 <= i < |items| ==> items[i] == JString(origins[i])
    requires forall i :: 0 <= i < |origins| ==> origins[i] != "" && NoEdgeSpace(origins[i], Python)
    ensures JsonOrigins(items) == origins
  {
    if items != [] {
      JsonOriginsOfStrings(items[1..], origins[1..]);
      TrimOfClean(origins[0], Python);
      assert origins == [origins[0]] + origins[1..];
    }
  }

  /** Unlike the comma path, the list path can yield an empty origin: a
      string of white space is truthy and strips to nothing. */
  lemma JsonBlankStringGivesEmptyOrigin()
    ensures JsonOrigins([JString(" ")]) == [""]
  {
    assert AllSpace(" ", Python);
    TrimEmptyIffBlank(" ", Python);
  }

  /** A value that is already trimmed and does not begin with `[` cannot
      decode to a list, so it takes the comma path. */
  lemma UnbracketedUsesCommas(raw: string, loads: string -> JsonParse)
    requires ListsStartWithBracket(loads)
    requires raw != "" && NoEdgeSpace(raw, Python) && raw[0] != '['
    ensures AllowedOrigins(Some(raw), loads) == CommaOrigins(raw)
  {
    TrimOfClean(raw, Python);
    NonListUsesCommas(raw, loads);
  }

  /** An origin that survives being written into a comma-separated value:
      non-empty, no white space at its edges, no comma. */
  predicate CleanOrigin(o: string) {
    o != "" && NoEdgeSpace(o, Python) && ',' !in o
  }

  /** On the comma path, clean origins joined with commas come back as
      they were. */
  lemma CommaOriginsOfJoin(origins: seq<string>)
    requires |origins| >= 1
    requires forall i :: 0 <= i < |origins| ==> CleanOrigin(origins[i])
    ensures CommaOrigins(Join(origins, ',')) == origins
  {
    SplitJoin(origins, ',');
    StrippedPartsOfClean(origins);
  }

  /** Writing a list of clean origins as a comma-separated value `raw` and
      reading it back gives the list. */
  lemma CommaRoundTrip(origins: seq<string>, raw: string, loads: string -> JsonParse)
    requires ListsStartWithBracket(loads)
    requires |origins| >= 1 && origins[0] != "" && origins[0][0] != '['
    requires forall i :: 0 <= i < |origins| ==> CleanOrigin(origins[i])
    requires raw == Join(origins, ',')
    ensures AllowedOrigins(Some(raw), loads) == origins
  {
    JoinTakesCommaPath(origins, loads);
    CommaOriginsOfJoin(origins);
  }

  /** Clean origins joined with commas, the first not starting with `[`,
      never decode as a JSON list, so they take the comma path. */
  lemma JoinTakesCommaPath(origins: seq<string>, loads: string -> JsonParse)
    requires ListsStartWithBracket(loads)
    requires |origins| >= 1 && origins[0] != "" && origins[0][0] != '['
    requires forall i :: 0 <= i < |origins| ==> origins[i] != "" && NoEdgeSpace(origins[i], Python)
    ensures AllowedOrigins(Some(Join(origins, ',')), loads) == CommaOrigins(Join(origins, ','))
  {
    JoinIsClean(origins);
    UnbracketedUsesCommas(Join(origins, ','), loads);
  }

  /** Clean, non-empty origins joined with commas give a clean, non-empty
      value that starts where the first origin starts. */
  lemma JoinIsClean(origins: seq<string>)
    requires |origins| >= 1
    requires forall i :: 0 <= i < |origins| ==> origins[i] != "" && NoEdgeSpace(origins[i], Python)
    ensures Join(origins, ',') != [] && Join(origins, ',')[0] == origins[0][0]
    ensures NoEdgeSpace(Join(origins, ','), Python)
  {
    var raw := Join(origins, ',');
    var first, last := origins[0], origins[|origins| - 1];
    JoinEdges(origins, ',');
    assert !IsSpace(first[0], Python);
    assert !IsSpace(last[|last| - 1], Python);
  }

  /** A join of non-empty pieces starts with the first piece's first
      character and ends with the last piece's last character. */
  lemma {:induction false} JoinEdges(parts: seq<string>, sep: char)
    requires |parts| >= 1
    requires forall i :: 0 <= i < |parts| ==> parts[i] != ""
    ensures Join(parts, sep) != []
    ensures Join(parts, sep)[0] == parts[0][0]
    ensures Join(parts, sep)[|Join(parts, sep)| - 1] == parts[|parts| - 1][|parts[|parts| - 1]| - 1]
  {
    if |parts| > 1 {
      JoinEdges(parts[1..], sep);
    }
  }
}
