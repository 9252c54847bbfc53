/**
  `parse_query` of src/network/communication/http_parser.hpp:14-70. How a value is read as an
  integer, a float or a string is the parameter `interpret`.
 */
module QueryParser {

  /** `std::string::find` from `from`; the length stands for npos. */
  function Find(s: string, c: char, from: nat := 0): (i: nat)
    requires from <= |s|
    ensures from <= i <= |s|
    ensures i < |s| ==> s[i] == c
    ensures forall j :: from <= j < i ==> s[j] != c
    decreases |s| - from
  {
    if from == |s| || s[from] == c then from else Find(s, c, from + 1)
  }

  // ----- the declarative parser -----

  /** The pieces of `s` between separators. */
  function Split(s: string, sep: char): seq<string>
    decreases |s|
  {
    var i := Find(s, sep);
    if i == |s| then [s] else [s[..i]] + Split(s[i + 1..], sep)
  }

  /** A piece that contains '=' binds what precedes the first one to what follows it. */
  function BindPiece<V>(piece: string, interpret: string -> V, params: map<string, V>): map<string, V> {
    var eq := Find(piece, '=');
    if eq < |piece| then params[piece[..eq] := interpret(piece[eq + 1..])] else params
  }

  /** The bindings of all pieces in order; a later one wins. */
  function Bind<V>(pieces: seq<string>, interpret: string -> V, params: map<string, V>): map<string, V>
    decreases |pieces|
  {
    if pieces == [] then params else Bind(pieces[1..], interpret, BindPiece(pieces[0], interpret, params))
  }

  /** Cut at the first '?', split on '&', bind. */
  function Parse<V>(target: string, interpret: string -> V): map<string, V> {
    var pos := Find(target, '?');
    if pos == |target| then map[] else Bind(Split(target[pos + 1..], '&'), interpret, map[])
  }

  // ----- the index-based loop refines it -----

  lemma FindInSuffix(s: string, c: char, start: nat)
    requires start <= |s|
    ensures Find(s[start..], c) == Find(s, c, start) - start
  {
  }

  /** One turn of the loop takes the piece up to the next '&'. */
  lemma SplitFrom(query: string, start: nat)
    requires start <= |query|
    ensures var amp := Find(query, '&', start);
            Split(query[start..], '&') ==
            if amp == |query| then [query[start..]] else [query[start..amp]] + Split(query[amp + 1..], '&')
  {
    var amp := Find(query, '&', start);
    FindInSuffix(query, '&', start);
    assert query[start..][..amp - start] == query[start..amp];
    if amp < |query| {
      assert query[start..][amp - start + 1..] == query[amp + 1..];
    }
  }

  /** What the rest of the query from `start` contributes; past the end, nothing. */
  ghost function Rest<V>(query: string, start: nat, interpret: string -> V, params: map<string, V>): map<string, V>
    requires start <= |query| + 1
  {
    if start > |query| then params else Bind(Split(query[start..], '&'), interpret, params)
  }

  lemma Turn<V>(query: string, start: nat, interpret: string -> V, params: map<string, V>)
    requires start < |query|
    ensures var amp := Find(query, '&', start);
            Rest(query, start, interpret, params)
            == Rest(query, amp + 1, interpret, BindPiece(query[start..amp], interpret, params))
  {
    SplitFrom(query, start);
    var amp := Find(query, '&', start);
    if amp == |query| {
      var piece := query[start..amp];
      assert query[start..] == piece;
      assert Bind([piece], interpret, params) == Bind([], interpret, BindPiece(piece, interpret, params));
    } else {
      var tail := Split(query[amp + 1..], '&');
      assert ([query[start..amp]] + tail)[1..] == tail;
    }
  }

  lemma NothingLeft<V>(query: string, interpret: string -> V, params: map<string, V>)
    ensures Rest(query, |query|, interpret, params) == params
  {
    assert query[|query|..] == "";
    assert Split("", '&') == [""];
    assert Bind([""], interpret, params) == Bind([], interpret, params);
  }

  /** What the loop makes of the query from `start` on. */
  ghost function Scan<V>(query: string, start: nat, interpret: string -> V, params: map<string, V>): map<string, V>
    decreases |query| - start
  {
    if start >= |query| then params
    else
      var amp := Find(query, '&', start);
      Scan(query, amp + 1, interpret, BindPiece(query[start..amp], interpret, params))
  }

  lemma {:induction false} ScanIsRest<V>(query: string, start: nat, interpret: string -> V, params: map<string, V>)
    requires start <= |query| + 1
    ensures Scan(query, start, interpret, params) == Rest(query, start, interpret, params)
    decreases |query| + 1 - start
  {
    if start < |query| {
      Turn(query, start, interpret, params);
      var amp := Find(query, '&', start);
      ScanIsRest(query, amp + 1, interpret, BindPiece(query[start..amp], interpret, params));
    } else if start == |query| {
      NothingLeft(query, interpret, params);
    }
  }

  lemma ScanIsBind<V>(query: string, interpret: string -> V, params: map<string, V>)
    ensures Scan(query, 0, interpret, params) == Bind(Split(query, '&'), interpret, params)
  {
    ScanIsRest(query, 0, interpret, params);
    assert query[0..] == query;
  }

  method ParseQuery<V>(target: string, interpret: string -> V) returns (params: map<string, V>)
    ensures params == Parse(target, interpret)
  {
    params := map[];
    var pos := Find(target, '?');
    if pos == |target| {
      return;
    }
    var query := target[pos + 1..];
    ScanIsBind(query, interpret, params);
    var start := 0;
    while start < |query|
      invariant Scan(query, start, interpret, params) == Parse(target, interpret)
    {
      var amp := Find(query, '&', start);
      var piece := query[start..amp];
      var eq := Find(piece, '=');
      if eq < |piece| {
        params := params[piece[..eq] := interpret(piece[eq + 1..])];
      }
      start := amp + 1;
    }
  }

  // ----- printing and parsing back -----

  datatype Pair = Pair(key: string, value: string)

  /** What stands between two '&': a pair, or a text without '='. */
  datatype Piece = Binding(pair: Pair) | Text(text: string)

  predicate Printable(p: Piece) {
    match p
    case Binding(Pair(key, value)) => '=' !in key && '&' !in key && '&' !in value
    case Text(text) => '=' !in text && '&' !in text
  }

  function PrintPiece(p: Piece): string {
    match p
    case Binding(Pair(key, value)) => key + "=" + value
    case Text(text) => text
  }

  function Print(pieces: seq<Piece>): string
    decreases |pieces|
  {
    if pieces == [] then ""
    else if |pieces| == 1 then PrintPiece(pieces[0])
    else PrintPiece(pieces[0]) + "&" + Print(pieces[1..])
  }

  function Pairs(pieces: seq<Piece>): seq<Pair>
    decreases |pieces|
  {
    if pieces == [] then []
    else (match pieces[0] case Binding(pair) => [pair] case Text(_) => []) + Pairs(pieces[1..])
  }

  function LastWins<V>(pairs: seq<Pair>, interpret: string -> V, params: map<string, V>): map<string, V>
    decreases |pairs|
  {
    if pairs == [] then params
    else LastWins(pairs[1..], interpret, params[pairs[0].key := interpret(pairs[0].value)])
  }

  /** The value a key ends up with is that of its last pair. */
  lemma {:induction false} LastWinsIsLast<V>(
    pairs: seq<Pair>, interpret: string -> V, params: map<string, V>, key: string)
    ensures var r := LastWins(pairs, interpret, params);
            && (key in r <==> key in params || exists p <- pairs :: p.key == key)
            && (forall i | 0 <= i < |pairs| && pairs[i].key == key &&
                           (forall j :: i < j < |pairs| ==> pairs[j].key != key) ::
                  key in r && r[key] == interpret(pairs[i].value))
            && ((forall p <- pairs :: p.key != key) && key in params ==> key in r && r[key] == params[key])
    decreases |pairs|
  {
    if pairs != [] {
      LastWinsIsLast(pairs[1..], interpret, params[pairs[0].key := interpret(pairs[0].value)], key);
      assert pairs == [pairs[0]] + pairs[1..];
    }
  }

  lemma FindAfterPrefix(a: string, c: char, b: string)
    requires c !in a
    ensures Find(a + [c] + b, c) == |a|
  {
    var s := a + [c] + b;
    var i := Find(s, c);
    assert s[|a|] == c;
    assert s[..|a|] == a;
    assert forall j :: 0 <= j < |a| ==> s[j] == a[j] && a[j] in a;
  }

  lemma FindNothing(a: string, c: char)
    requires c !in a
    ensures Find(a, c) == |a|
  {
  }

  /** One printed piece binds its pair, or nothing. */
  lemma BindPrinted<V>(p: Piece, rest: seq<string>, interpret: string -> V, params: map<string, V>)
    requires Printable(p)
    ensures Bind([PrintPiece(p)] + rest, interpret, params)
            == Bind(rest, interpret, LastWins(Pairs([p]), interpret, params))
  {
    var piece := PrintPiece(p);
    assert ([piece] + rest)[1..] == rest;
    assert [p][1..] == [];
    match p
    case Binding(pair) =>
      FindAfterPrefix(pair.key, '=', pair.value);
      assert piece[..|pair.key|] == pair.key && piece[|pair.key| + 1..] == pair.value;
      assert Pairs([p]) == [pair] && [pair][1..] == [];
    case Text(text) => FindNothing(text, '=');
  }

  lemma PairsOfCons<V>(p: Piece, rest: seq<Piece>, interpret: string -> V, params: map<string, V>)
    ensures LastWins(Pairs([p] + rest), interpret, params)
            == LastWins(Pairs(rest), interpret, LastWins(Pairs([p]), interpret, params))
  {
    assert ([p] + rest)[1..] == rest && [p][1..] == [];
    if p.Binding? {
      assert ([p.pair] + Pairs(rest))[1..] == Pairs(rest) && [p.pair][1..] == [];
      assert Pairs([p]) == [p.pair];
    } else {
      assert [] + Pairs(rest) == Pairs(rest);
    }
  }

  lemma NoSeparator(p: Piece)
    requires Printable(p)
    ensures '&' !in PrintPiece(p)
  {
  }

  lemma {:induction false} BindOfPrint<V>(pieces: seq<Piece>, interpret: string -> V, params: map<string, V>)
    requires forall p <- pieces :: Printable(p)
    ensures Bind(Split(Print(pieces), '&'), interpret, params) == LastWins(Pairs(pieces), interpret, params)
    decreases |pieces|
  {
    if pieces == [] {
      assert Find("", '&') == 0 && Split("", '&') == [""];
      assert Bind([""], interpret, params) == Bind([], interpret, params);
    } else {
      var p := pieces[0];
      var piece := PrintPiece(p);
      var params' := LastWins(Pairs([p]), interpret, params);
      NoSeparator(p);
      assert pieces == [p] + pieces[1..];
      PairsOfCons(p, pieces[1..], interpret, params);
      if |pieces| == 1 {
        FindNothing(piece, '&');
        BindPrinted(p, [], interpret, params);
        assert [piece] + [] == [piece];
        assert Pairs(pieces[1..]) == [];
      } else {
        var rest := Print(pieces[1..]);
        FindAfterPrefix(piece, '&', rest);
        var s := piece + "&" + rest;
        assert s[..|piece|] == piece && s[|piece| + 1..] == rest;
        BindPrinted(p, Split(rest, '&'), interpret, params);
        BindOfPrint(pieces[1..], interpret, params');
      }
    }
  }

  /** Printing pieces after a path and parsing the target returns the last binding of each key; a
      piece without '=' contributes nothing. */
  lemma PrintThenParse<V>(path: string, pieces: seq<Piece>, interpret: string -> V)
    requires '?' !in path && forall p <- pieces :: Printable(p)
    ensures Parse(path + "?" + Print(pieces), interpret) == LastWins(Pairs(pieces), interpret, map[])
  {
    var target := path + "?" + Print(pieces);
    FindAfterPrefix(path, '?', Print(pieces));
    assert target[|path| + 1..] == Print(pieces);
    BindOfPrint(pieces, interpret, map[]);
  }

  lemma NoQuery<V>(target: string, interpret: string -> V)
    requires '?' !in target
    ensures Parse(target, interpret) == map[]
  {
    FindNothing(target, '?');
  }

  /** A text without '&' is one printed piece. */
  lemma OnePiece(s: string) returns (p: Piece)
    requires '&' !in s
    ensures Printable(p) && PrintPiece(p) == s
  {
    var eq := Find(s, '=');
    if eq < |s| {
      p := Binding(Pair(s[..eq], s[eq + 1..]));
      assert s[..eq] + "=" + s[eq + 1..] == s;
    } else {
      p := Text(s);
    }
  }

  lemma {:induction false} EveryQueryIsPrinted(query: string) returns (pieces: seq<Piece>)
    ensures pieces != [] && Print(pieces) == query && forall p <- pieces :: Printable(p)
    decreases |query|
  {
    var amp := Find(query, '&');
    var first := OnePiece(query[..amp]);
    if amp == |query| {
      pieces := [first];
    } else {
      var rest := EveryQueryIsPrinted(query[amp + 1..]);
      pieces := [first] + rest;
      assert pieces[1..] == rest;
      assert query[..amp] + "&" + query[amp + 1..] == query;
    }
  }

  /** What `parse_query` returns for every target: nothing without a '?', otherwise the last binding
      of each key among the pieces of what follows the first '?', read in the one way it can be. */
  lemma ParseIsDetermined<V>(target: string, interpret: string -> V) returns (path: string, pieces: seq<Piece>)
    ensures if '?' !in target then Parse(target, interpret) == map[]
            else
              && '?' !in path && (forall p <- pieces :: Printable(p)) && target == path + "?" + Print(pieces)
              && Parse(target, interpret) == LastWins(Pairs(pieces), interpret, map[])
  {
    var pos := Find(target, '?');
    if pos == |target| {
      path, pieces := "", [];
      NoQuery(target, interpret);
    } else {
      path := target[..pos];
      pieces := EveryQueryIsPrinted(target[pos + 1..]);
      assert target == path + "?" + Print(pieces);
      assert target[pos] in target;
      PrintThenParse(path, pieces, interpret);
    }
  }
}
