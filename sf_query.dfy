/** The query-string helpers of src/naics_code_data_generation.py: the
    space/'+' conversion between a SOQL statement and its URL form, and the
    prefixing of an endpoint with the query path and the Salesforce domain. */
module SfQuery {

  /** Python's `s.split(sep)` for a one-character separator: the pieces
      between separators, empty ones included, at least one piece. */
  function Split(s: string, sep: char): (r: seq<string>)
    ensures |r| >= 1
    ensures forall i :: 0 <= i < |r| ==> sep !in r[i]
    ensures |r| == 1 + |s| - |RemoveChar(s, sep)|
  {
    if s == [] then [""]
    else
      var rest := Split(s[1..], sep);
      if s[0] == sep then [""] + rest
      else [[s[0]] + rest[0]] + rest[1..]
  }

  /** `s` with every occurrence of `c` deleted; used to count separators. */
  function RemoveChar(s: string, c: char): (r: string)
    ensures |r| <= |s| && c !in r
  {
    if s == [] then [] else (if s[0] == c then [] else [s[0]]) + RemoveChar(s[1..], c)
  }

  /** Python's `sep.join(parts)`. */
  function Join(sep: string, parts: seq<string>): string {
    if parts == [] then ""
    else if |parts| == 1 then parts[0]
    else parts[0] + sep + Join(sep, parts[1..])
  }

  /** Every `a` in `s` replaced by `b`, every other character kept. */
  function ReplaceChar(s: string, a: char, b: char): (r: string)
    ensures |r| == |s|
    ensures forall i :: 0 <= i < |s| ==> r[i] == if s[i] == a then b else s[i]
  {
    seq(|s|, i requires 0 <= i < |s| => if s[i] == a then b else s[i])
  }

  /** Joining the pieces of a split with another character replaces one
      character by the other. */
  lemma {:induction false} JoinSplit(s: string, a: char, b: char)
    ensures Join([b], Split(s, a)) == ReplaceChar(s, a, b)
  {
    if s != [] {
      var rest := Split(s[1..], a);
      JoinSplit(s[1..], a, b);
      ReplaceCharCons(s, a, b);
      if s[0] == a {
        JoinEmptyHead([b], rest);
      } else {
        JoinHead([b], s[0], rest);
      }
    }
  }

  lemma ReplaceCharCons(s: string, a: char, b: char)
    requires s != []
    ensures ReplaceChar(s, a, b) == [if s[0] == a then b else s[0]] + ReplaceChar(s[1..], a, b)
  {
    var r, t := ReplaceChar(s, a, b), ReplaceChar(s[1..], a, b);
    assert forall i :: 1 <= i < |s| ==> r[i] == t[i - 1];
  }

  /** An empty first piece leaves only the separator in front. */
  lemma JoinEmptyHead(sep: string, parts: seq<string>)
    requires parts != []
    ensures Join(sep, [""] + parts) == sep + Join(sep, parts)
  {
    assert ([""] + parts)[1..] == parts;
  }

  /** Prefixing the first piece prefixes the joined text. */
  lemma JoinHead(sep: string, c: char, parts: seq<string>)
    requires parts != []
    ensures Join(sep, [[c] + parts[0]] + parts[1..]) == [c] + Join(sep, parts)
  {
    var q := [[c] + parts[0]] + parts[1..];
    assert q[0] == [c] + parts[0];
    if |parts| > 1 {
      assert q[1..] == parts[1..];
    }
  }

  /** Line 34, `soql_to_python`: every space becomes '+'. */
  function SoqlToPython(soql: string): (r: string)
    ensures r == ReplaceChar(soql, ' ', '+')
    ensures ' ' !in r
  {
    JoinSplit(soql, ' ', '+');
    Join("+", Split(soql, ' '))
  }

  /** Line 41, `python_to_soql`: every '+' becomes a space. */
  function PythonToSoql(python: string): (r: string)
    ensures r == ReplaceChar(python, '+', ' ')
    ensures '+' !in r
  {
    JoinSplit(python, '+', ' ');
    Join(" ", Split(python, '+'))
  }

  /** The two conversions undo each other on a statement without '+'. */
  lemma SoqlRoundTrip(soql: string)
    requires '+' !in soql
    ensures PythonToSoql(SoqlToPython(soql)) == soql
  {
    var p := SoqlToPython(soql);
    var q := PythonToSoql(p);
    forall i | 0 <= i < |soql|
      ensures q[i] == soql[i]
    {
      assert soql[i] != '+';
    }
  }

  /** And on a URL form without spaces. */
  lemma PythonRoundTrip(python: string)
    requires ' ' !in python
    ensures SoqlToPython(PythonToSoql(python)) == python
  {
    var s := PythonToSoql(python);
    var p := SoqlToPython(s);
    forall i | 0 <= i < |python|
      ensures p[i] == python[i]
    {
      assert python[i] != ' ';
    }
  }

  /** Without that condition the round trip fails: a '+' written in the SOQL
      statement comes back as a space. */
  lemma SoqlRoundTripFails()
    ensures PythonToSoql(SoqlToPython("a+b")) == "a b"
  {
    var p := SoqlToPython("a+b");
    assert p == ReplaceChar("a+b", ' ', '+');
    assert p[0] == 'a' && p[1] == '+' && p[2] == 'b';
    var q := PythonToSoql(p);
    assert q[0] == 'a' && q[1] == ' ' && q[2] == 'b';
  }

  const Domain := "https://lacity.my.salesforce.com"
  const QueryPath := "/services/data/v51.0/query/?q="

  /** Line 27, `get_http`: the domain followed by the endpoint. */
  function GetHttp(ep: string): (r: string)
    ensures |r| == |Domain| + |ep|
    ensures r[..|Domain|] == Domain && r[|Domain|..] == ep
  {
    Domain + ep
  }

  /** Line 48, `get_endpoint`: the query path followed by the query. */
  function GetEndpoint(query: string): (r: string)
    ensures |r| == |QueryPath| + |query|
    ensures r[..|QueryPath|] == QueryPath && r[|QueryPath|..] == query
  {
    QueryPath + query
  }

  /** The URL line 208 requests for a SOQL statement: domain, query path and
      the statement with its spaces turned into '+'; it holds no space, and
      the statement can be read back from it when it holds no '+'. */
  lemma QueryUrl(soql: string)
    ensures var url := GetHttp(GetEndpoint(SoqlToPython(soql)));
      && url == Domain + QueryPath + ReplaceChar(soql, ' ', '+')
      && ' ' !in url
      && ('+' !in soql ==> PythonToSoql(url[|Domain| + |QueryPath|..]) == soql)
  {
    var t := SoqlToPython(soql);
    var pre := Domain + QueryPath;
    var url := GetHttp(GetEndpoint(t));
    assert url == pre + t;
    PrefixNoSpace();
    NoSpaceAppend(pre, t);
    assert url[|pre|..] == t;
    if '+' !in soql {
      SoqlRoundTrip(soql);
    }
  }

  lemma PrefixNoSpace()
    ensures ' ' !in Domain + QueryPath
  {
  }

  lemma NoSpaceAppend(a: string, b: string)
    requires ' ' !in a && ' ' !in b
    ensures ' ' !in a + b
  {
  }
}
