/** The shared route table and the URL builder (shared/routes.ts): the one
    API path, and the substitution of `:name` placeholders by parameter
    values. */
module Routes {
  import opened Common

  /** The health check's path. */
  const HealthPath := "/api/health"

  /** A parameter value: a string, or an integer number. */
  datatype ParamValue = Str(s: string) | Num(n: int)

  /** String(value): a string as is, an integer in decimal. */
  function ValueString(v: ParamValue): string {
    match v
    case Str(s) => s
    case Num(n) => IntToString(n)
  }

  /** `pat` occurs in `s` starting at position i. */
  predicate MatchesAt(s: string, pat: string, i: int) {
    0 <= i && i + |pat| <= |s| && s[i..i + |pat|] == pat
  }

  /** The first position at or after `from` where `pat` occurs, or -1. */
  function FindFrom(s: string, pat: string, from: nat): (r: int)
    requires from <= |s|
    ensures r == -1 || (from <= r && MatchesAt(s, pat, r))
    ensures r >= 0 ==> forall j :: from <= j < r ==> !MatchesAt(s, pat, j)
    ensures r == -1 ==> forall j :: from <= j ==> !MatchesAt(s, pat, j)
    decreases |s| - from
  {
    if from + |pat| > |s| then -1
    else if s[from..from + |pat|] == pat then from
    else FindFrom(s, pat, from + 1)
  }

  /** The first occurrence of `pat` in `s`, or -1 (String.prototype.indexOf);
      `s` includes `pat` exactly when this is not -1. */
  function FindFirst(s: string, pat: string): (r: int)
    ensures r == -1 <==> forall j :: !MatchesAt(s, pat, j)
    ensures r >= 0 ==> MatchesAt(s, pat, r) && forall j :: j < r ==> !MatchesAt(s, pat, j)
  {
    FindFrom(s, pat, 0)
  }

  /** String.prototype.replace with a string pattern: the first occurrence of
      `pat` gives way to `rep`; with no occurrence nothing changes. */
  function ReplaceFirst(s: string, pat: string, rep: string): (r: string)
    ensures FindFirst(s, pat) == -1 ==> r == s
    ensures FindFirst(s, pat) >= 0 ==>
      var i := FindFirst(s, pat);
      && |r| == |s| - |pat| + |rep|
      && r[..i] == s[..i] && r[i..i + |rep|] == rep && r[i + |rep|..] == s[i + |pat|..]
  {
    var i := FindFirst(s, pat);
    if i == -1 then s else s[..i] + rep + s[i + |pat|..]
  }

  /** The placeholder a parameter fills. */
  function Placeholder(key: string): string {
    ":" + key
  }

  /** One parameter's turn: when the URL so far includes its placeholder,
      the first occurrence is replaced by the value. */
  function FillOne(url: string, param: (string, ParamValue)): string {
    if FindFirst(url, Placeholder(param.0)) >= 0
    then ReplaceFirst(url, Placeholder(param.0), ValueString(param.1))
    else url
  }

  /** The parameters applied one after another, in their order. */
  function Fill(path: string, ps: seq<(string, ParamValue)>): string
    decreases |ps|
  {
    if ps == [] then path else FillOne(Fill(path, ps[..|ps| - 1]), ps[|ps| - 1])
  }

  /** Builds a URL from a path and optional parameters. */
  method BuildUrl(path: string, params: Option<seq<(string, ParamValue)>>) returns (url: string)
    ensures params.None? ==> url == path
    ensures params.Some? ==> url == Fill(path, params.value)
  {
    url := path;
    if params.Some? {
      var ps := params.value;
      var k := 0;
      while k < |ps|
        invariant 0 <= k <= |ps|
        invariant url == Fill(path, ps[..k])
      {
        assert ps[..k + 1][..k] == ps[..k];
        var (key, value) := ps[k];
        if FindFirst(url, ":" + key) >= 0 {
          url := ReplaceFirst(url, ":" + key, ValueString(value));
        }
        k := k + 1;
      }
      assert ps[..|ps|] == ps;
    }
  }

  /** An occurrence starts with the pattern's first character. */
  lemma MatchHead(s: string, pat: string, j: int)
    requires |pat| > 0
    ensures MatchesAt(s, pat, j) ==> s[j] == pat[0]
  {
    if MatchesAt(s, pat, j) {
      assert s[j] == s[j..j + |pat|][0];
    }
  }

  /** A text with no ':' holds no placeholder. */
  lemma NoPlaceholderWithoutColon(s: string, key: string)
    requires ':' !in s
    ensures FindFirst(s, Placeholder(key)) == -1
  {
    forall j ensures !MatchesAt(s, Placeholder(key), j) {
      MatchHead(s, Placeholder(key), j);
    }
  }

  /** A path with no ':' comes back unchanged whatever the parameters. */
  lemma {:induction false} NoColonUnchanged(path: string, ps: seq<(string, ParamValue)>)
    requires ':' !in path
    ensures Fill(path, ps) == path
    decreases |ps|
  {
    if ps != [] {
      NoColonUnchanged(path, ps[..|ps| - 1]);
      NoPlaceholderWithoutColon(path, ps[|ps| - 1].0);
    }
  }

  /** The health check's path has no placeholder: building it gives it back. */
  lemma HealthUrl(ps: seq<(string, ParamValue)>)
    ensures Fill(HealthPath, ps) == "/api/health"
  {
    NoColonUnchanged(HealthPath, ps);
  }

  /** Filling a placeholder whose ':' is the first in the URL puts the value
      exactly there and keeps everything around it. */
  lemma FillFirstPlaceholder(a: string, key: string, b: string, v: ParamValue)
    requires ':' !in a
    ensures FillOne(a + Placeholder(key) + b, (key, v)) == a + ValueString(v) + b
  {
    var s := a + Placeholder(key) + b;
    var pat := Placeholder(key);
    assert s[|a|..|a| + |pat|] == pat;
    assert MatchesAt(s, pat, |a|);
    forall j | j < |a| ensures !MatchesAt(s, pat, j) {
      MatchHead(s, pat, j);
      if 0 <= j {
        assert s[j] == a[j];
      }
    }
    var i := FindFirst(s, pat);
    assert i == |a|;
    var r := ReplaceFirst(s, pat, ValueString(v));
    assert r == s[..i] + ValueString(v) + s[i + |pat|..];
    assert s[..i] == a;
    assert s[i + |pat|..] == b;
  }

  /** Two parameters are applied first to last. */
  lemma FillTwo(path: string, p: (string, ParamValue), q: (string, ParamValue))
    ensures Fill(path, [p, q]) == FillOne(FillOne(path, p), q)
  {
    assert [p, q][..1] == [p];
    assert [p][..0] == [];
    assert Fill(path, [p]) == FillOne(Fill(path, []), p);
    assert Fill(path, [p, q]) == FillOne(Fill(path, [p]), q);
  }

  /** In a + ":" + key with no ':' in a or key, position |a| holds the only
      ':'. */
  lemma OnlyColonAt(a: string, key: string)
    requires ':' !in a && ':' !in key
    ensures forall j :: 0 <= j < |a + Placeholder(key)| && j != |a| ==> (a + Placeholder(key))[j] != ':'
  {
    var s := a + Placeholder(key);
    forall j | 0 <= j < |s| && j != |a| ensures s[j] != ':' {
      if j < |a| {
        assert s[j] == a[j];
      } else {
        assert s[j] == key[j - |a| - 1];
      }
    }
  }

  /** The placeholder for `other` matches right after a exactly when `other`
      is a prefix of `key`. */
  lemma MatchAfterPrefix(a: string, key: string, other: string)
    ensures MatchesAt(a + Placeholder(key), Placeholder(other), |a|) ==> |other| <= |key| && key[..|other|] == other
  {
    var s := a + Placeholder(key);
    if MatchesAt(s, Placeholder(other), |a|) {
      assert s[|a| + 1 .. |a| + 1 + |other|] == Placeholder(other)[1..] == other;
      assert s[|a| + 1 .. |a| + 1 + |other|] == key[..|other|];
    }
  }

  /** A placeholder that does not match at the only ':' of a text does not
      occur in it. */
  lemma NoMatchBesideOnlyColon(s: string, key: string, at: nat)
    requires forall j :: 0 <= j < |s| && j != at ==> s[j] != ':'
    requires !MatchesAt(s, Placeholder(key), at)
    ensures FindFirst(s, Placeholder(key)) == -1
  {
    forall j ensures !MatchesAt(s, Placeholder(key), j) {
      MatchHead(s, Placeholder(key), j);
    }
  }

  /** Substitutions happen one after another over the URL being built: a
      value that itself reads as a placeholder ":k2" is filled by a later
      parameter k2, but an earlier one does not see it, so swapping the two
      entries changes the URL. */
  lemma OrderMatters(a: string, k1: string, k2: string, n: int)
    requires ':' !in a && ':' !in k1
    requires !(|k2| <= |k1| && k1[..|k2|] == k2)
    ensures Fill(a + Placeholder(k1), [(k1, Str(Placeholder(k2))), (k2, Num(n))]) == a + IntToString(n)
    ensures Fill(a + Placeholder(k1), [(k2, Num(n)), (k1, Str(Placeholder(k2)))]) == a + Placeholder(k2)
    ensures a + IntToString(n) != a + Placeholder(k2)
  {
    var path := a + Placeholder(k1);
    assert path == a + Placeholder(k1) + "";
    assert a + Placeholder(k2) == a + Placeholder(k2) + "";

    FillTwo(path, (k1, Str(Placeholder(k2))), (k2, Num(n)));
    FillFirstPlaceholder(a, k1, "", Str(Placeholder(k2)));
    FillFirstPlaceholder(a, k2, "", Num(n));

    FillTwo(path, (k2, Num(n)), (k1, Str(Placeholder(k2))));
    OnlyColonAt(a, k1);
    MatchAfterPrefix(a, k1, k2);
    NoMatchBesideOnlyColon(path, k2, |a|);
    assert FillOne(path, (k2, Num(n))) == path;

    assert (a + IntToString(n))[|a|] == IntToString(n)[0] != ':';
    assert (a + Placeholder(k2))[|a|] == ':';
  }
}
