/** The `venue|symbol` key that partitions books and bars, and reading it back. */
module SplitKey {

  const BAR: char := '|'

  function KeyOf(venue: string, symbol: string): string {
    venue + [BAR] + symbol
  }

  /** Every field between bars; one more than there are bars. */
  function Fields(key: string): (fields: seq<string>)
    ensures |fields| > 0
  {
    if key == "" then [""]
    else
      var rest := Fields(key[1..]);
      if key[0] == BAR then [""] + rest else [[key[0]] + rest[0]] + rest[1..]
  }

  function DropTrailingEmpty(fields: seq<string>): (kept: seq<string>)
    ensures kept <= fields
    ensures kept != [] ==> kept[|kept| - 1] != ""
  {
    if fields != [] && fields[|fields| - 1] == "" then DropTrailingEmpty(fields[..|fields| - 1]) else fields
  }

  /** `String.split` on a bar: trailing empty fields are discarded, and a key
      without a bar is returned whole. */
  function Split(key: string): seq<string> {
    if BAR !in key then [key] else DropTrailingEmpty(Fields(key))
  }

  lemma {:induction false} FieldsHaveNoBar(key: string)
    ensures forall f :: f in Fields(key) ==> BAR !in f
  {
    if key != "" {
      FieldsHaveNoBar(key[1..]);
      var rest := Fields(key[1..]);
      assert rest[0] in rest;
    }
  }

  lemma {:induction false} FieldsOfJoin(venue: string, symbol: string)
    requires BAR !in venue
    ensures Fields(KeyOf(venue, symbol)) == [venue] + Fields(symbol)
  {
    var key := KeyOf(venue, symbol);
    if venue == "" {
      assert key[1..] == symbol;
    } else {
      FieldsOfJoin(venue[1..], symbol);
      assert key[1..] == KeyOf(venue[1..], symbol);
      assert [venue[0]] + venue[1..] == venue;
    }
  }

  lemma {:induction false} FieldsWithoutBar(s: string)
    requires BAR !in s
    ensures Fields(s) == [s]
  {
    if s != "" {
      FieldsWithoutBar(s[1..]);
      assert [s[0]] + s[1..] == s;
    }
  }

  /** A key reads back as the pair it was made from exactly when neither part holds
      a bar and the symbol is not empty. */
  lemma SplitKeyIff(venue: string, symbol: string)
    ensures Split(KeyOf(venue, symbol)) == [venue, symbol] <==> BAR !in venue && BAR !in symbol && symbol != ""
  {
    var key := KeyOf(venue, symbol);
    assert key[|venue|] == BAR;
    FieldsHaveNoBar(key);
    if BAR !in venue && BAR !in symbol {
      FieldsOfJoin(venue, symbol);
      FieldsWithoutBar(symbol);
    }
    if Split(key) == [venue, symbol] {
      assert Fields(key)[0] == venue && Fields(key)[1] == symbol;
    }
  }

  lemma KeyInjective(venue: string, symbol: string, venue': string, symbol': string)
    requires BAR !in venue && BAR !in venue' && KeyOf(venue, symbol) == KeyOf(venue', symbol')
    ensures venue == venue' && symbol == symbol'
  {
    var key := KeyOf(venue, symbol);
    assert key[|venue|] == BAR && key[|venue'|] == BAR;
    assert |venue| == |venue'| by {
      assert forall i :: 0 <= i < |venue| ==> key[i] == venue[i];
      assert forall i :: 0 <= i < |venue'| ==> key[i] == venue'[i];
    }
    assert venue == key[..|venue|] == key[..|venue'|] == venue';
    assert symbol == key[|venue| + 1..] == symbol';
  }

  /** A stream shares its key with some other one exactly when a bar occurs in its venue
      or in its symbol. */
  lemma KeySharedIff(venue: string, symbol: string)
    ensures (exists v, s :: (v, s) != (venue, symbol) && KeyOf(v, s) == KeyOf(venue, symbol)) <==>
            BAR in venue || BAR in symbol
  {
    var key := KeyOf(venue, symbol);
    if BAR in symbol {
      var i :| 0 <= i < |symbol| && symbol[i] == BAR;
      var v, s := venue + [BAR] + symbol[..i], symbol[i + 1..];
      assert symbol == symbol[..i] + [BAR] + symbol[i + 1..];
      assert KeyOf(v, s) == key && |v| > |venue|;
    } else if BAR in venue {
      var i :| 0 <= i < |venue| && venue[i] == BAR;
      var v, s := venue[..i], venue[i + 1..] + [BAR] + symbol;
      assert venue == venue[..i] + [BAR] + venue[i + 1..];
      assert KeyOf(v, s) == key && |v| < |venue|;
    }
    if BAR !in venue && BAR !in symbol {
      forall v, s | KeyOf(v, s) == key ensures (v, s) == (venue, symbol) {
        OneBarOneSplit(venue, symbol, v, s);
      }
    }
  }

  /** A key with one bar splits at that bar only. */
  lemma OneBarOneSplit(venue: string, symbol: string, v: string, s: string)
    requires KeyOf(v, s) == KeyOf(venue, symbol) && BAR !in venue && BAR !in symbol
    ensures v == venue && s == symbol
  {
    var key := KeyOf(venue, symbol);
    assert key[|v|] == BAR && key == KeyOf(v, s);
    assert |v| == |venue| by {
      assert forall i :: 0 <= i < |venue| ==> key[i] == venue[i];
      assert forall i :: |venue| < i < |key| ==> key[i] == symbol[i - |venue| - 1];
    }
    assert v == key[..|v|] && venue == key[..|venue|];
    assert s == key[|v| + 1..] && symbol == key[|venue| + 1..];
  }

  /** Two streams that share a key, and a key that reads back as the wrong pair. */
  lemma BarsCollide()
    ensures KeyOf("a|b", "c") == KeyOf("a", "b|c")
    ensures Split(KeyOf("a", "b|")) == ["a", "b"]
  {
    FieldsOfJoin("a", "b|");
    FieldsOfJoin("b", "");
    assert KeyOf("b", "") == "b|";
    assert Fields("b|") == ["b", ""];
    var f := Fields(KeyOf("a", "b|"));
    assert f == ["a", "b", ""];
    assert f[..2] == ["a", "b"];
    assert KeyOf("a", "b|")[1] == BAR;
  }
}
