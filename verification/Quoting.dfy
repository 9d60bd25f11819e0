/** SQL string literals as the server writes them, and as section 5.3 of ISO/IEC 9075-2 reads them. */
module Quoting {
  import opened Model

  // ---- writing ----

  /** Each quote doubled. */
  function Doubled(s: string): string
  {
    if s == "" then ""
    else if s[0] == '\'' then ['\'', '\''] + Doubled(s[1..])
    else [s[0]] + Doubled(s[1..])
  }

  function SqlStr(s: string): string
  {
    ['\''] + Doubled(s) + ['\'']
  }

  /** The literals of a list, joined by a comma and a space. */
  function Joined(ids: seq<string>): string
  {
    if ids == [] then ""
    else if |ids| == 1 then SqlStr(ids[0])
    else SqlStr(ids[0]) + [',', ' '] + Joined(ids[1..])
  }

  // ---- reading ----

  /** The characters up to the closing quote, a doubled quote standing for one, and the text after it. */
  function ReadBody(text: string): Option<(string, string)>
  {
    if text == "" then None
    else if text[0] != '\'' then Prepend(text[0], ReadBody(text[1..]))
    else if |text| > 1 && text[1] == '\'' then Prepend('\'', ReadBody(text[2..]))
    else Some(("", text[1..]))
  }

  function Prepend(c: char, r: Option<(string, string)>): Option<(string, string)>
  {
    if r.None? then None else Some(([c] + r.value.0, r.value.1))
  }

  function ReadLiteral(text: string): Option<(string, string)>
  {
    if text == "" || text[0] != '\'' then None else ReadBody(text[1..])
  }

  /** Literals separated by commas, until one is not followed by a comma. */
  function ReadList(text: string): Option<(seq<string>, string)>
    decreases |text|
  {
    match ReadLiteral(text)
    case None => None
    case Some((value, rest)) =>
      if |rest| >= 2 && rest[0] == ',' && rest[1] == ' ' && |rest| < |text| then
        match ReadList(rest[2..])
        case None => None
        case Some((values, after)) => Some(([value] + values, after))
      else Some(([value], rest))
  }

  // ---- the round trip ----

  predicate StartsWithQuote(s: string)
  {
    s != "" && s[0] == '\''
  }

  lemma {:induction false} BodyRoundTrip(s: string, rest: string)
    requires !StartsWithQuote(rest)
    ensures ReadBody(Doubled(s) + ['\''] + rest) == Some((s, rest))
    decreases |s|
  {
    var text := Doubled(s) + ['\''] + rest;
    if s == "" {
      assert text == ['\''] + rest;
      assert text[1..] == rest;
    } else {
      BodyRoundTrip(s[1..], rest);
      var tail := Doubled(s[1..]) + ['\''] + rest;
      assert s == [s[0]] + s[1..];
      if s[0] == '\'' {
        assert text == ['\'', '\''] + tail && text[2..] == tail;
      } else {
        assert text == [s[0]] + tail && text[1..] == tail;
      }
    }
  }

  lemma {:induction false} BodyReadsOn(s: string, rest: string)
    requires StartsWithQuote(rest)
    ensures var r := ReadBody(Doubled(s) + ['\''] + rest);
            r.Some? ==> |r.value.0| > |s| && |r.value.1| < |rest|
    decreases |s|
  {
    var text := Doubled(s) + ['\''] + rest;
    if s == "" {
      assert text == ['\''] + rest && text[1] == '\'';
      assert text[2..] == rest[1..];
      ReadBodyShrinks(rest[1..]);
    } else {
      BodyReadsOn(s[1..], rest);
      var tail := Doubled(s[1..]) + ['\''] + rest;
      if s[0] == '\'' {
        assert text == ['\'', '\''] + tail && text[2..] == tail;
      } else {
        assert text == [s[0]] + tail && text[1..] == tail;
      }
    }
  }

  lemma {:induction false} ReadBodyShrinks(text: string)
    ensures ReadBody(text).Some? ==> |ReadBody(text).value.1| < |text|
    decreases |text|
  {
    if text != "" {
      ReadBodyShrinks(text[1..]);
      if |text| > 1 { ReadBodyShrinks(text[2..]); }
    }
  }

  /** Reading what was written gives back the string and the text after it, whatever the string,
      exactly when that text does not start with a quote. */
  lemma LiteralRoundTrip(s: string, rest: string)
    ensures ReadLiteral(SqlStr(s) + rest) == Some((s, rest)) <==> rest == "" || rest[0] != '\''
  {
    assert (SqlStr(s) + rest)[1..] == Doubled(s) + ['\''] + rest;
    if StartsWithQuote(rest) {
      BodyReadsOn(s, rest);
    } else {
      BodyRoundTrip(s, rest);
    }
  }

  lemma ReadsOne(id: string, rest: string)
    requires !StartsWithQuote(rest) && !(|rest| >= 2 && rest[0] == ',' && rest[1] == ' ')
    ensures ReadList(SqlStr(id) + rest) == Some(([id], rest))
  {
    LiteralRoundTrip(id, rest);
  }

  lemma ReadsOneMore(id: string, tail: string)
    ensures ReadList(SqlStr(id) + ([',', ' '] + tail))
         == match ReadList(tail) case None => None case Some((values, after)) => Some(([id] + values, after))
  {
    LiteralRoundTrip(id, [',', ' '] + tail);
    assert ([',', ' '] + tail)[2..] == tail;
  }

  lemma Regrouped(a: string, c: string, b: string, rest: string)
    ensures a + c + b + rest == a + (c + (b + rest))
  {}

  lemma JoinedHead(ids: seq<string>, rest: string)
    requires |ids| > 1
    ensures Joined(ids) + rest == SqlStr(ids[0]) + ([',', ' '] + (Joined(ids[1..]) + rest))
  {
    Regrouped(SqlStr(ids[0]), [',', ' '], Joined(ids[1..]), rest);
  }

  /** An id list written into `IN (...)` is read back as that list, up to the closing parenthesis. */
  lemma {:induction false} ListRoundTrip(ids: seq<string>, after: string)
    requires ids != []
    ensures ReadList(Joined(ids) + ([')'] + after)) == Some((ids, [')'] + after))
    decreases |ids|
  {
    var rest := [')'] + after;
    if |ids| == 1 {
      ReadsOne(ids[0], rest);
      assert Joined(ids) == SqlStr(ids[0]) && ids == [ids[0]];
    } else {
      var tail := Joined(ids[1..]) + rest;
      JoinedHead(ids, rest);
      ReadsOneMore(ids[0], tail);
      ListRoundTrip(ids[1..], after);
      assert ids == [ids[0]] + ids[1..];
    }
  }

  /** Two ids never share a literal. */
  lemma LiteralsDiffer(s: string, t: string)
    requires SqlStr(s) == SqlStr(t)
    ensures s == t
  {
    LiteralRoundTrip(s, "");
    LiteralRoundTrip(t, "");
    assert SqlStr(s) + "" == SqlStr(s) && SqlStr(t) + "" == SqlStr(t);
  }
}
