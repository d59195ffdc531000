/** `parseParams(str)`: the `data-amazon-params` attribute, written
    `k=v&k=v`, read into a plain object. The pieces are split on '&' and
    then on '='; a piece with an empty key is skipped; the key and the value
    text are decoded with `decodeURIComponent` after the value's
    replacement step; a later key overwrites an earlier one. The
    replacement step is where the builds differ. */
module Params {
  import opened Js
  import opened Dicts
  import opened Stores

  // ---------------------------------------------------------------------
  // the replacement step before decoding

  /** The ESM build's `.replace(/\+/g, " ")`: every '+' becomes a space. */
  function PlusToSpace(s: string): string
  {
    seq(|s|, i requires 0 <= i < |s| => if s[i] == '+' then ' ' else s[i])
  }

  /** The UMD builds' `.replace(/\\+/g, " ")`: the pattern is a run of one
      or more backslashes, so each run becomes a single space and '+' is
      left as it is. A backslash followed by another is dropped; the last
      of a run becomes the space. */
  function CollapseBackslashes(s: string): string
    decreases |s|
  {
    if s == [] then []
    else if s[0] == '\\' && |s| > 1 && s[1] == '\\' then CollapseBackslashes(s[1..])
    else [if s[0] == '\\' then ' ' else s[0]] + CollapseBackslashes(s[1..])
  }

  /** The replacement the given build applies to the value text. */
  function Unplus(v: Version, s: string): string
  {
    if v == V1Esm then PlusToSpace(s) else CollapseBackslashes(s)
  }

  /** ESM: no '+' is left, every other character stays where it was. */
  lemma PlusToSpaceSpec(s: string)
    ensures |PlusToSpace(s)| == |s|
    ensures '+' !in PlusToSpace(s)
    ensures forall i :: 0 <= i < |s| ==> PlusToSpace(s)[i] == if s[i] == '+' then ' ' else s[i]
  {
  }

  /** UMD: no backslash is left, and every character that is neither a
      backslash nor a space, '+' included, occurs as often as before. */
  lemma {:induction false} CollapseBackslashesSpec(s: string)
    ensures '\\' !in CollapseBackslashes(s)
    ensures forall c :: c != '\\' && c != ' ' ==> multiset(CollapseBackslashes(s))[c] == multiset(s)[c]
    decreases |s|
  {
    if s != [] {
      CollapseBackslashesSpec(s[1..]);
      assert s == [s[0]] + s[1..];
    }
  }

  /** UMD: text without backslashes is passed through unchanged. */
  lemma {:induction false} CollapseBackslashesIdentity(s: string)
    requires '\\' !in s
    ensures CollapseBackslashes(s) == s
    decreases |s|
  {
    if s != [] {
      CollapseBackslashesIdentity(s[1..]);
      assert s == [s[0]] + s[1..];
    }
  }

  /** UMD: text free of backslashes passes through a prefix unchanged. */
  lemma {:induction false} CollapseAfterPlain(p: string, x: string)
    requires '\\' !in p
    ensures CollapseBackslashes(p + x) == p + CollapseBackslashes(x)
    decreases |p|
  {
    if p != [] {
      CollapseAfterPlain(p[1..], x);
      assert p[0] in p && (p + x)[0] == p[0];
      assert (p + x)[1..] == p[1..] + x;
      assert p == [p[0]] + p[1..];
    } else {
      assert p + x == x;
    }
  }

  /** UMD: a run of `n` backslashes not followed by another becomes one space. */
  lemma {:induction false} CollapseRun(n: nat, q: string)
    requires n >= 1 && (q == [] || q[0] != '\\')
    ensures CollapseBackslashes(seq(n, _ => '\\') + q) == " " + CollapseBackslashes(q)
    decreases n
  {
    var s := seq(n, _ => '\\') + q;
    assert s[0] == '\\';
    if n == 1 {
      assert s[1..] == q;
    } else {
      assert s[1] == '\\';
      assert s[1..] == seq(n - 1, _ => '\\') + q;
      CollapseRun(n - 1, q);
    }
  }

  /** UMD: each maximal run of backslashes becomes a single space, and the
      text around it is kept. */
  lemma BackslashRun(p: string, n: nat, q: string)
    requires n >= 1 && '\\' !in p && (q == [] || q[0] != '\\')
    ensures CollapseBackslashes(p + seq(n, _ => '\\') + q) == p + " " + CollapseBackslashes(q)
  {
    CollapseAfterPlain(p, seq(n, _ => '\\') + q);
    CollapseRun(n, q);
    assert p + seq(n, _ => '\\') + q == p + (seq(n, _ => '\\') + q);
  }

  /** UMD: three backslashes between two letters collapse to one space. */
  lemma BackslashRunExample()
    ensures CollapseBackslashes("a\\\\\\b") == "a b"
  {
    assert "a\\\\\\b" == "a" + seq(3, _ => '\\') + "b";
    BackslashRun("a", 3, "b");
    CollapseBackslashesIdentity("b");
  }

  /** "a+b" keeps its '+' in the UMD builds, which a form-encoded value
      means as a space, and becomes "a b" in the ESM build. */
  lemma PlusKeptInUmd(s: string)
    requires s == "a+b"
    ensures CollapseBackslashes(s) == s
    ensures PlusToSpace(s) == "a b"
  {
    CollapseBackslashesIdentity(s);
  }

  // ---------------------------------------------------------------------
  // parsing

  /** `p[1] || ""`: the text between the first and the second '='. */
  function ValueText(p: seq<string>): string
  {
    if |p| > 1 then p[1] else ""
  }

  /** The one key that `o[k] = x` on a `{}` literal does not create: it
      reaches the `__proto__` setter of `Object.prototype`, which ignores a
      string value. */
  const ProtoKey: string := "__proto__"

  /** `o[k] = x` on the object `parseParams` builds. */
  function SetProp(o: Dict, k: string, x: string): Dict
  {
    if k == ProtoKey then o else Put(o, k, x)
  }

  /** The decoded pairs of the pieces in order, empty keys skipped,
      duplicates kept, and a decoded `__proto__` key dropped once both
      sides have decoded; `decode` is `decodeURIComponent`, None where it
      throws. */
  function Pairs(pieces: seq<string>, v: Version, decode: string -> Option<string>): (r: Result<Dict>)
    ensures r.Err? ==> r.error == UriError
    ensures r.Ok? ==> forall i :: 0 <= i < |r.value| ==> r.value[i].0 != ProtoKey
    decreases |pieces|
  {
    if pieces == [] then Ok([])
    else
      var p := Split(pieces[0], '=');
      if p[0] == "" then Pairs(pieces[1..], v, decode)
      else
        match decode(p[0])
        case None => Err(UriError)
        case Some(k) =>
          match decode(Unplus(v, ValueText(p)))
          case None => Err(UriError)
          case Some(x) =>
            match Pairs(pieces[1..], v, decode)
            case Err(e) => Err(e)
            case Ok(rest) => Ok(if k == ProtoKey then rest else [(k, x)] + rest)
  }

  /** A piece that throws: its key is not empty, and the key or the
      replaced value text does not decode. */
  predicate BadPiece(piece: string, v: Version, decode: string -> Option<string>)
  {
    var p := Split(piece, '=');
    p[0] != "" && (decode(p[0]).None? || decode(Unplus(v, ValueText(p))).None?)
  }

  /** Parsing fails exactly when some piece throws. */
  lemma {:induction false} PairsFails(pieces: seq<string>, v: Version, decode: string -> Option<string>)
    ensures Pairs(pieces, v, decode).Err? <==> exists i :: 0 <= i < |pieces| && BadPiece(pieces[i], v, decode)
    decreases |pieces|
  {
    if pieces != [] {
      PairsFails(pieces[1..], v, decode);
      if exists i :: 1 <= i < |pieces| && BadPiece(pieces[i], v, decode) {
        var i :| 1 <= i < |pieces| && BadPiece(pieces[i], v, decode);
        assert pieces[1..][i - 1] == pieces[i];
      }
      if exists i :: 0 <= i < |pieces[1..]| && BadPiece(pieces[1..][i], v, decode) {
        var i :| 0 <= i < |pieces[1..]| && BadPiece(pieces[1..][i], v, decode);
        assert pieces[i + 1] == pieces[1..][i];
      }
    }
  }

  /** The object the pieces build when assigned into `o` one by one. */
  function ParsedInto(o: Dict, pieces: seq<string>, v: Version, decode: string -> Option<string>): Result<Dict>
  {
    match Pairs(pieces, v, decode)
    case Err(e) => Err(e)
    case Ok(ps) => Ok(PutAll(o, ps))
  }

  /** `parseParams(str)`, a URIError where a key or value does not decode. */
  function ParsedParams(s: string, v: Version, decode: string -> Option<string>): Result<Dict>
  {
    if s == "" then Ok([]) else ParsedInto([], Split(s, '&'), v, decode)
  }

  /** `parseParams(str)`, filling `o` piece by piece. */
  method ParseParams(s: string, v: Version, decode: string -> Option<string>) returns (res: Result<Dict>)
    ensures res == ParsedParams(s, v, decode)
  {
    var o: Dict := [];
    if s == "" {
      return Ok(o);
    }
    var pieces := Split(s, '&');
    var i := 0;
    while i < |pieces|
      invariant 0 <= i <= |pieces|
      invariant ParsedInto(o, pieces[i..], v, decode) == ParsedInto([], pieces, v, decode)
    {
      var p := Split(pieces[i], '=');
      assert pieces[i..][1..] == pieces[i + 1..];
      if p[0] != "" {
        var key := decode(p[0]);
        if key.None? {
          return Err(UriError);
        }
        var value := decode(Unplus(v, ValueText(p)));
        if value.None? {
          return Err(UriError);
        }
        assert ParsedInto(o, pieces[i..], v, decode)
            == ParsedInto(SetProp(o, key.value, value.value), pieces[i + 1..], v, decode) by {
          match Pairs(pieces[i + 1..], v, decode)
          case Err(_) =>
          case Ok(rest) =>
            assert ([(key.value, value.value)] + rest)[1..] == rest;
        }
        o := SetProp(o, key.value, value.value);
      }
      i := i + 1;
    }
    return Ok(o);
  }

  // ---------------------------------------------------------------------
  // properties of the parse

  /** `parseParams` throws exactly when the attribute is not empty and one
      of its '&' pieces throws. */
  lemma ParsedParamsFails(s: string, v: Version, decode: string -> Option<string>)
    ensures ParsedParams(s, v, decode).Err? <==>
      s != "" && exists i :: 0 <= i < |Split(s, '&')| && BadPiece(Split(s, '&')[i], v, decode)
  {
    if s != "" {
      PairsFails(Split(s, '&'), v, decode);
      assert ParsedParams(s, v, decode).Err? <==> Pairs(Split(s, '&'), v, decode).Err?;
    }
  }

  /** The object never has a key twice. */
  lemma ParsedUnique(s: string, v: Version, decode: string -> Option<string>)
    requires ParsedParams(s, v, decode).Ok?
    ensures UniqueKeys(ParsedParams(s, v, decode).value)
  {
    if s != "" {
      PutAllUnique([], Pairs(Split(s, '&'), v, decode).value);
    }
  }

  /** Each key reads the value of its last occurrence: a later duplicate
      overwrites an earlier one. */
  lemma ParsedLastWins(s: string, v: Version, decode: string -> Option<string>, k: string)
    requires s != "" && ParsedParams(s, v, decode).Ok?
    ensures Get(ParsedParams(s, v, decode).value, k) == LastValue(Pairs(Split(s, '&'), v, decode).value, k)
  {
    GetPutAllLast([], Pairs(Split(s, '&'), v, decode).value, k);
  }

  /** The key of `key=value` or `key=value=more` is the text before the
      first '=', and its value text runs up to the second '='. */
  lemma {:induction false} PieceSplit(key: string, value: string, more: string)
    requires '=' !in key && '=' !in value
    requires more == "" || more[0] == '='
    ensures var p := Split(key + "=" + value + more, '=');
      p[0] == key && ValueText(p) == value
  {
    var piece := key + "=" + value + more;
    if more == "" {
      SplitAfterFirst(key, '=', value);
      SplitNoSeparator(value, '=');
      assert piece == key + ['='] + value;
    } else {
      var tail := more[1..];
      assert more == ['='] + tail;
      assert piece == key + ['='] + value + ['='] + tail;
      SplitTwoFields(key, value, tail);
    }
  }

  /** Two fields free of '=' and a tail split into the two fields and the
      tail's own fields. */
  lemma SplitTwoFields(key: string, value: string, tail: string)
    requires '=' !in key && '=' !in value
    ensures Split(key + ['='] + value + ['='] + tail, '=') == [key, value] + Split(tail, '=')
  {
    SplitAfterFirst(value, '=', tail);
    assert key + ['='] + value + ['='] + tail == key + ['='] + (value + ['='] + tail);
    SplitAfterFirst(key, '=', value + ['='] + tail);
  }

  /** A piece `key=value`, or `key=value=more`, gives the decoded key and
      the decoded, replaced value text, unless the key decodes to
      `__proto__`; whatever follows a second '=' is dropped. */
  lemma OnePair(key: string, value: string, more: string, v: Version, decode: string -> Option<string>)
    requires key != "" && '=' !in key && '=' !in value
    requires more == "" || more[0] == '='
    requires decode(key).Some? && decode(Unplus(v, value)).Some?
    ensures Pairs([key + "=" + value + more], v, decode)
      == if decode(key).value == ProtoKey then Ok([])
         else Ok([(decode(key).value, decode(Unplus(v, value)).value)])
  {
    var piece := key + "=" + value + more;
    PieceSplit(key, value, more);
    assert [piece][1..] == [];
    assert Pairs([piece][1..], v, decode) == Ok([]);
    var p := Split(piece, '=');
    assert p[0] == key && ValueText(p) == value;
    var pair := (decode(key).value, decode(Unplus(v, value)).value);
    if pair.0 != ProtoKey {
      assert Pairs([piece], v, decode) == Ok([pair] + []);
      assert [pair] + [] == [pair];
    }
  }

  /** The parsed object never holds a `__proto__` key, whatever the
      attribute says. */
  lemma ProtoKeyNotParsed(s: string, v: Version, decode: string -> Option<string>)
    requires ParsedParams(s, v, decode).Ok?
    ensures Get(ParsedParams(s, v, decode).value, ProtoKey).None?
  {
    if s != "" {
      var ps := Pairs(Split(s, '&'), v, decode).value;
      GetPutAllLast([], ps, ProtoKey);
      LastValueAbsent(ps, ProtoKey);
    }
  }

  /** "__proto__=x" parses to the empty object, where "tag=x" gives a pair. */
  lemma ProtoPieceIgnored(v: Version, decode: string -> Option<string>)
    requires decode("__proto__") == Some(ProtoKey) && decode(Unplus(v, "x")).Some?
    ensures ParsedParams("__proto__=x", v, decode) == Ok([])
  {
    var s := "__proto__=x";
    SplitNoSeparator(s, '&');
    assert s == "__proto__" + "=" + "x" + "";
    OnePair("__proto__", "x", "", v, decode);
  }

  /** A piece with an empty key, such as "=x", contributes nothing. */
  lemma EmptyKeySkipped(value: string, rest: string, v: Version, decode: string -> Option<string>)
    requires '&' !in value
    ensures ParsedParams("=" + value + "&" + rest, v, decode) == ParsedParams(rest, v, decode)
  {
    var s := "=" + value + "&" + rest;
    SplitAfterFirst("=" + value, '&', rest);
    assert s == ("=" + value) + ['&'] + rest;
    var pieces := Split(s, '&');
    assert Split("=" + value, '=')[0] == "" by {
      SplitAfterFirst("", '=', value);
      assert "" + ['='] + value == "=" + value;
    }
    assert pieces[1..] == Split(rest, '&');
    assert Pairs(pieces, v, decode) == Pairs(Split(rest, '&'), v, decode);
    if rest == "" {
      assert Split("", '=') == [""];
      assert Pairs([""], v, decode) == Pairs([], v, decode);
    }
  }
}
