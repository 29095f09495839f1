/** Screen orders as comma-separated text: writing numbers, and reading back whatever the text holds. */
module OrderText {
  import opened Wrappers

  // ---------- numbers ----------

  predicate IsDigit(c: char) {
    '0' <= c <= '9'
  }

  function DigitOf(c: char): nat
    requires IsDigit(c)
  {
    c as int - '0' as int
  }

  function CharOf(d: nat): (c: char)
    requires d < 10
    ensures IsDigit(c) && DigitOf(c) == d
  {
    ('0' as int + d) as char
  }

  function Digits(n: nat): (s: string)
    ensures s != "" && forall i | 0 <= i < |s| :: IsDigit(s[i])
  {
    if n < 10 then [CharOf(n)] else Digits(n / 10) + [CharOf(n % 10)]
  }

  function ToString(n: int): (s: string)
    ensures s != "" && forall i | 0 <= i < |s| :: s[i] != ','
  {
    if n < 0 then "-" + Digits(-n) else Digits(n)
  }

  predicate AllDigits(s: string) {
    forall i | 0 <= i < |s| :: IsDigit(s[i])
  }

  function ValueOf(s: string): nat
    requires AllDigits(s)
  {
    if s == "" then 0 else ValueOf(s[..|s| - 1]) * 10 + DigitOf(s[|s| - 1])
  }

  // A token is a number if it is not empty and holds nothing but digits.
  function Number(token: string): Option<nat> {
    if token != "" && AllDigits(token) then Some(ValueOf(token)) else None
  }

  lemma {:induction false} NumberRoundTrip(n: nat)
    ensures Number(ToString(n)) == Some(n)
  {
    var s := Digits(n);
    if n >= 10 {
      NumberRoundTrip(n / 10);
      assert s[..|s| - 1] == Digits(n / 10);
    } else {
      assert s == [CharOf(n)] && s[..0] == "";
      assert ValueOf(s) == ValueOf("") * 10 + n;
    }
  }

  // Decimal digits, the last one last.
  lemma WrittenInDecimal(n: nat)
    ensures n < 10 ==> ToString(n) == ["0123456789"[n]]
    ensures n >= 10 ==> ToString(n) == ToString(n / 10) + ["0123456789"[n % 10]]
  {
    assert "0123456789"[n % 10] == (48 + n % 10) as char;
  }

  // ---------- lists ----------

  function Comma(s: string): (k: nat)
    ensures k <= |s| && (k < |s| ==> s[k] == ',') && forall i | 0 <= i < k :: s[i] != ','
  {
    if s == "" || s[0] == ',' then 0 else 1 + Comma(s[1..])
  }

  // The text between commas; nothing follows a comma at the very end.
  function Tokens(s: string): seq<string>
    decreases |s|
  {
    if s == "" then []
    else
      var k := Comma(s);
      [s[..k]] + if k == |s| then [] else Tokens(s[k + 1..])
  }

  // The numbers among the tokens, in order.
  function Numbers(tokens: seq<string>): seq<nat> {
    if tokens == [] then []
    else
      var n := Number(tokens[|tokens| - 1]);
      Numbers(tokens[..|tokens| - 1]) + if n.Some? then [n.value] else []
  }

  function Joined(ids: seq<int>): string {
    if ids == [] then ""
    else
      var init := Joined(ids[..|ids| - 1]);
      (if init == "" then "" else init + ",") + ToString(ids[|ids| - 1])
  }

  lemma CommaAt(a: string, b: string)
    requires forall i | 0 <= i < |a| :: a[i] != ','
    ensures Comma(a + "," + b) == |a| && Comma(a) == |a|
  {
    var s := a + "," + b;
    assert s[|a|] == ',';
  }

  lemma OneToken(t: string)
    requires t != "" && forall i | 0 <= i < |t| :: t[i] != ','
    ensures Comma(t) == |t| && Tokens(t) == [t]
  {
    CommaAt(t, "");
    assert t[..|t|] == t;
  }

  // The first token and the rest.
  lemma FirstToken(a: string, b: string)
    requires forall i | 0 <= i < |a| :: a[i] != ','
    ensures Tokens(a + "," + b) == [a] + Tokens(b)
  {
    CommaAt(a, b);
    var s := a + "," + b;
    assert s[..|a|] == a && s[|a| + 1..] == b;
  }

  // Reading a list with one more token at its end.
  lemma {:induction false} TokensAppend(s: string, t: string)
    requires s != "" && s[|s| - 1] != ',' && t != "" && forall i | 0 <= i < |t| :: t[i] != ','
    ensures Tokens(s + "," + t) == Tokens(s) + [t]
    decreases |s|
  {
    hide Comma, Tokens;
    var k := Comma(s);
    OneToken(t);
    if k == |s| {
      FirstToken(s, t);
      OneToken(s);
    } else {
      var a, b := s[..k], s[k + 1..];
      assert s == a + "," + b && s + "," + t == a + "," + (b + "," + t);
      FirstToken(a, b);
      FirstToken(a, b + "," + t);
      TokensAppend(b, t);
    }
  }

  lemma NoTokens()
    ensures Tokens("") == []
  {}

  lemma {:induction false} JoinedTokens(ids: seq<int>)
    ensures |Tokens(Joined(ids))| == |ids| && forall i | 0 <= i < |ids| :: Tokens(Joined(ids))[i] == ToString(ids[i])
    ensures ids != [] ==> Joined(ids) != "" && Joined(ids)[|Joined(ids)| - 1] != ','
  {
    hide Tokens, ToString;
    NoTokens();
    if ids != [] {
      var init, t := ids[..|ids| - 1], ToString(ids[|ids| - 1]);
      JoinedTokens(init);
      if init == [] {
        OneToken(t);
        assert Joined(init) == "" && Joined(ids) == t;
      } else {
        TokensAppend(Joined(init), t);
      }
    }
  }

  lemma {:induction false} NumbersOfAll(tokens: seq<string>, ids: seq<int>)
    requires |tokens| == |ids| && forall i | 0 <= i < |ids| :: 0 <= ids[i] && tokens[i] == ToString(ids[i])
    ensures Numbers(tokens) == ids
  {
    hide Number;
    if ids != [] {
      NumbersOfAll(tokens[..|tokens| - 1], ids[..|ids| - 1]);
      NumberRoundTrip(ids[|ids| - 1]);
    }
  }

  // Writing a list of numbers and reading it back.
  lemma ListRoundTrip(ids: seq<int>)
    requires forall i | 0 <= i < |ids| :: 0 <= ids[i]
    ensures Numbers(Tokens(Joined(ids))) == ids
  {
    hide Numbers, Joined, Tokens;
    JoinedTokens(ids);
    NumbersOfAll(Tokens(Joined(ids)), ids);
  }
}
