/** Parameter-info extraction (crates/plugin/src/syntax_utils.rs) and the
    string trimming it relies on (Rust's `str::trim`). */
module SyntaxUtils {
  import opened Ast

  /** Rust's `char::is_whitespace`: the Unicode White_Space property. */
  predicate IsWhitespace(c: char)
  {
    || ('\t' <= c <= '\r')
    || c == ' '
    || c == '\U{85}'
    || c == '\U{A0}'
    || c == '\U{1680}'
    || ('\U{2000}' <= c <= '\U{200A}')
    || c == '\U{2028}'
    || c == '\U{2029}'
    || c == '\U{202F}'
    || c == '\U{205F}'
    || c == '\U{3000}'
  }

  predicate AllWhitespace(s: string)
  {
    forall i :: 0 <= i < |s| ==> IsWhitespace(s[i])
  }

  /** Neither the first nor the last character is whitespace. */
  predicate Trimmed(s: string)
  {
    s == [] || (!IsWhitespace(s[0]) && !IsWhitespace(s[|s| - 1]))
  }

  /** `trim_start`: drops all leading whitespace. */
  function TrimStart(s: string): string
  {
    if s != [] && IsWhitespace(s[0]) then TrimStart(s[1..]) else s
  }

  /** `trim_end`: drops all trailing whitespace. */
  function TrimEnd(s: string): string
  {
    if s != [] && IsWhitespace(s[|s| - 1]) then TrimEnd(s[..|s| - 1]) else s
  }

  /** `trim`: drops leading and trailing whitespace. */
  function Trim(s: string): string
  {
    TrimEnd(TrimStart(s))
  }

  /** TrimStart leaves the suffix of `s` that follows its whitespace prefix,
      and that suffix does not start with whitespace. */
  lemma {:induction false} TrimStartSpec(s: string)
    ensures var r := TrimStart(s);
      && |r| <= |s| && r == s[|s| - |r|..]
      && AllWhitespace(s[..|s| - |r|])
      && (r == [] || !IsWhitespace(r[0]))
  {
    if s != [] && IsWhitespace(s[0]) {
      TrimStartSpec(s[1..]);
      var r := TrimStart(s[1..]);
      assert s[..|s| - |r|] == [s[0]] + s[1..][..|s| - 1 - |r|];
    }
  }

  /** TrimEnd leaves the prefix of `s` before its whitespace suffix, and that
      prefix does not end with whitespace. */
  lemma {:induction false} TrimEndSpec(s: string)
    ensures var r := TrimEnd(s);
      && |r| <= |s| && r == s[..|r|]
      && AllWhitespace(s[|r|..])
      && (r == [] || !IsWhitespace(r[|r| - 1]))
  {
    if s != [] && IsWhitespace(s[|s| - 1]) {
      TrimEndSpec(s[..|s| - 1]);
      var r := TrimEnd(s[..|s| - 1]);
      assert s[|r|..] == s[..|s| - 1][|r|..] + [s[|s| - 1]];
    }
  }

  /** Every string is whitespace, its trimmed text, then whitespace, and the
      trimmed text neither starts nor ends with whitespace. */
  lemma TrimParts(s: string) returns (a: string, b: string)
    ensures s == a + Trim(s) + b
    ensures AllWhitespace(a) && AllWhitespace(b)
    ensures Trimmed(Trim(s))
  {
    TrimStartSpec(s);
    var t := TrimStart(s);
    TrimEndSpec(t);
    var r := TrimEnd(t);
    var i := |s| - |t|;
    a, b := s[..i], t[|r|..];
    assert t == r + b;
  }

  lemma AllWhitespaceConcat(a: string, b: string)
    requires AllWhitespace(a) && AllWhitespace(b)
    ensures AllWhitespace(a + b)
  {
  }

  /** TrimStart drops exactly a whitespace prefix `p` when what follows it
      does not start with whitespace. */
  lemma {:induction false} TrimStartUnique(p: string, t: string)
    requires AllWhitespace(p)
    requires t == [] || !IsWhitespace(t[0])
    ensures TrimStart(p + t) == t
  {
    if p != [] {
      assert (p + t)[1..] == p[1..] + t;
      TrimStartUnique(p[1..], t);
    } else {
      assert p + t == t;
    }
  }

  /** TrimEnd drops exactly a whitespace suffix `q` when what precedes it
      does not end with whitespace. */
  lemma {:induction false} TrimEndUnique(t: string, q: string)
    requires AllWhitespace(q)
    requires t == [] || !IsWhitespace(t[|t| - 1])
    ensures TrimEnd(t + q) == t
  {
    if q != [] {
      assert (t + q)[..|t + q| - 1] == t + q[..|q| - 1];
      TrimEndUnique(t, q[..|q| - 1]);
    } else {
      assert t + q == t;
    }
  }

  /** Trim is characterised by its result: if `s` is whitespace, then a
      trimmed string `r`, then whitespace, Trim(s) is `r`. */
  lemma {:induction false} TrimUnique(p: string, r: string, q: string)
    requires AllWhitespace(p) && AllWhitespace(q) && Trimmed(r)
    ensures Trim(p + r + q) == r
  {
    if r == [] {
      assert p + r + q == p + q;
      AllWhitespaceConcat(p, q);
      TrimStartUnique(p + q, []);
      assert p + q + [] == p + q;
      TrimEndUnique([], []);
    } else {
      assert p + r + q == p + (r + q);
      TrimStartUnique(p, r + q);
      TrimEndUnique(r, q);
    }
  }

  /** Trimming twice is trimming once. */
  lemma {:induction false} TrimIdempotent(s: string)
    ensures Trim(Trim(s)) == Trim(s)
  {
    var _, _ := TrimParts(s);
    var r := Trim(s);
    assert [] + r + [] == r;
    TrimUnique([], r, []);
  }

  lemma Regroup(w1: string, a: string, r: string, b: string, w2: string)
    ensures w1 + (a + r + b) + w2 == (w1 + a) + r + (b + w2)
  {
  }

  /** Whitespace added around a string does not change its trimmed text. */
  lemma {:induction false} TrimIgnoresPadding(w1: string, s: string, w2: string)
    requires AllWhitespace(w1) && AllWhitespace(w2)
    ensures Trim(w1 + s + w2) == Trim(s)
  {
    var a, b := TrimParts(s);
    var r := Trim(s);
    AllWhitespaceConcat(w1, a);
    AllWhitespaceConcat(b, w2);
    Regroup(w1, a, r, b, w2);
    TrimUnique(w1 + a, r, b + w2);
  }

  /** What the plugin reads of a parameter. */
  datatype ParamInfo = ParamInfo(name: string, modifiers: string, paramType: string)

  /** `get_parameter_info`: the name, modifier-list and type texts of the
      parameter, each trimmed of surrounding whitespace. */
  function GetParameterInfo(param: Param): ParamInfo
  {
    ParamInfo(Trim(param.nameText), Trim(param.modifiersText), Trim(param.tyText))
  }

  /** The three fields are the trimmed texts: none starts or ends with
      whitespace, and trimming them again changes nothing. */
  lemma ParameterInfoTrimmed(param: Param)
    ensures var info := GetParameterInfo(param);
      && info.name == Trim(param.nameText)
      && info.modifiers == Trim(param.modifiersText)
      && info.paramType == Trim(param.tyText)
      && Trimmed(info.name) && Trimmed(info.modifiers) && Trimmed(info.paramType)
      && Trim(info.name) == info.name
      && Trim(info.modifiers) == info.modifiers
      && Trim(info.paramType) == info.paramType
  {
    var _, _ := TrimParts(param.nameText);
    var _, _ := TrimParts(param.modifiersText);
    var _, _ := TrimParts(param.tyText);
    TrimIdempotent(param.nameText);
    TrimIdempotent(param.modifiersText);
    TrimIdempotent(param.tyText);
  }
}
