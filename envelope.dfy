/** parse_u_message of monitor_aa.py: the text between `<U>` and `</U=hh>`
    is a command word followed by CAN tokens; each token of 14 or more
    characters splits into fixed-width fields and its payload is decoded by
    register. What the Python prints is returned here as an `Outcome`. */
module Envelope {
  import opened Wrappers
  import opened Text
  import opened Registers

  /** One decoded CAN token (the `parsed_message` dict, plus the origin label
      and the raw payload that the console line shows). */
  datatype Record = Record(
    kind: string,
    unitType: string,
    originDest: string,
    originName: string,
    unitId: string,
    registerId: string,
    payload: string,
    description: string,
    decoded: Decoded)

  /** What the loop reports for a token: a record, or the
      "Incomplete CAN message" warning for a short token. */
  datatype Entry = Parsed(record: Record) | Skipped(token: string)

  /** The entries of the tokens processed, and the token whose decoder raised
      ValueError, if one did (which ends the loop and the program). */
  datatype Tail = Tail(entries: seq<Entry>, stoppedAt: Option<string>)

  datatype Outcome =
    | Blank                              // empty after strip
    | Ping                               // a keep-alive
    | NoContent                          // fewer than two words
    | Unrecognized(message: string)      // the first word is not a CAN command
    | Done(kind: string, entries: seq<Entry>)
    | Raised(kind: string, entries: seq<Entry>, token: string)

  const Kinds: set<string> := {"setCAN", "getCAN", "ackCAN"}

  /** `origin_map.get(origin_dest, origin_dest)`. */
  function OriginName(originDest: string): (name: string)
    ensures originDest == "01" ==> name == "Tablet"
    ensures originDest == "03" ==> name == "CB    "
    ensures originDest != "01" && originDest != "03" ==> name == originDest
  {
    if originDest == "01" then "Tablet" else if originDest == "03" then "CB    " else originDest
  }

  /** The token a record was cut from: its fields laid end to end. */
  function Reassemble(rec: Record): string
  {
    rec.unitType + rec.originDest + rec.unitId + rec.registerId + rec.payload
  }

  /** Cuts a token into unit type (2), origin (2), unit id (5), register id (2)
      and payload (the rest), and decodes the payload by register. */
  function SplitToken(kind: string, token: string): (rec: Record)
    requires |token| >= 14
    ensures Reassemble(rec) == token
    ensures |rec.unitType| == 2 && |rec.originDest| == 2 && |rec.unitId| == 5 && |rec.registerId| == 2
    ensures |rec.payload| == |token| - 11
    ensures rec.kind == kind && rec.originName == OriginName(rec.originDest)
    ensures (rec.description, rec.decoded) == DecodeRegister(rec.registerId, rec.payload)
  {
    var registerId := token[9..11];
    var payload := token[11..];
    var (description, decoded) := DecodeRegister(registerId, payload);
    assert token == token[0..2] + token[2..4] + token[4..9] + token[9..11] + token[11..];
    Record(kind, token[0..2], token[2..4], OriginName(token[2..4]), token[4..9], registerId, payload,
           description, decoded)
  }

  function Prepend(e: Entry, t: Tail): Tail
  {
    Tail([e] + t.entries, t.stoppedAt)
  }

  /** The loop over the CAN tokens, one token at a time. */
  function Process(kind: string, tokens: seq<string>): Tail
  {
    if tokens == [] then Tail([], None)
    else
      var token := tokens[0];
      if token == "1" then Process(kind, tokens[1..])
      else if |token| < 14 then Prepend(Skipped(token), Process(kind, tokens[1..]))
      else
        var rec := SplitToken(kind, token);
        if rec.decoded.Malformed? then Tail([], Some(token))
        else Prepend(Parsed(rec), Process(kind, tokens[1..]))
  }

  /** parse_u_message on the decoded text of one frame. */
  function UMessage(message: string): Outcome
  {
    var m := Strip(message);
    if m == [] then Blank
    else if StartsWith(m, "Ping") then Ping
    else
      var words := Split(m);
      if |words| < 2 then NoContent
      else if words[0] !in Kinds then Unrecognized(m)
      else
        var tail := Process(words[0], words[1..]);
        if tail.stoppedAt.None? then Done(words[0], tail.entries)
        else Raised(words[0], tail.entries, tail.stoppedAt.value)
  }

  /** parse_u_message: the guards, then the loop over the tokens. */
  method ParseUMessage(message: string) returns (outcome: Outcome)
    ensures outcome == UMessage(message)
  {
    var m := Strip(message);
    if m == [] {
      return Blank;
    }
    if StartsWith(m, "Ping") {
      return Ping;
    }
    var words := Split(m);
    if |words| < 2 {
      return NoContent;
    }
    var kind := words[0];
    if kind !in Kinds {
      return Unrecognized(m);
    }
    var tail := ProcessTokens(kind, words[1..]);
    if tail.stoppedAt.None? {
      outcome := Done(kind, tail.entries);
    } else {
      outcome := Raised(kind, tail.entries, tail.stoppedAt.value);
    }
  }

  /** The `for` loop of parse_u_message, accumulating one entry per token it
      reports and stopping where a decoder raises. */
  method ProcessTokens(kind: string, tokens: seq<string>) returns (tail: Tail)
    ensures tail == Process(kind, tokens)
  {
    var entries: seq<Entry> := [];
    var i := 0;
    while i < |tokens|
      invariant 0 <= i <= |tokens|
      invariant Process(kind, tokens) ==
        var rest := Process(kind, tokens[i..]); Tail(entries + rest.entries, rest.stoppedAt)
    {
      var token := tokens[i];
      var rest := Process(kind, tokens[i + 1..]);
      assert tokens[i..][0] == token && tokens[i..][1..] == tokens[i + 1..];
      if token == "1" {
        // the keep-alive token is dropped silently
        assert Process(kind, tokens[i..]) == rest;
      } else if |token| < 14 {
        assert Process(kind, tokens[i..]) == Prepend(Skipped(token), rest);
        assert entries + ([Skipped(token)] + rest.entries) == (entries + [Skipped(token)]) + rest.entries;
        entries := entries + [Skipped(token)];
      } else {
        var rec := SplitToken(kind, token);
        if rec.decoded.Malformed? {
          assert Process(kind, tokens[i..]) == Tail([], Some(token));
          assert entries + [] == entries;
          return Tail(entries, Some(token));
        }
        assert Process(kind, tokens[i..]) == Prepend(Parsed(rec), rest);
        assert entries + ([Parsed(rec)] + rest.entries) == (entries + [Parsed(rec)]) + rest.entries;
        entries := entries + [Parsed(rec)];
      }
      i := i + 1;
    }
    assert tokens[i..] == [];
    assert entries + [] == entries;
    return Tail(entries, None);
  }

  // ---------------------------------------------------------------------
  // Properties
  // ---------------------------------------------------------------------

  /** The tokens the loop reports on: all but the bare "1"s, in order. */
  function Kept(tokens: seq<string>): (kept: seq<string>)
    ensures |kept| <= |tokens|
  {
    if tokens == [] then []
    else if tokens[0] == "1" then Kept(tokens[1..])
    else [tokens[0]] + Kept(tokens[1..])
  }

  /** The token an entry was made from. */
  function TokenOf(e: Entry): string
  {
    match e
    case Parsed(rec) => Reassemble(rec)
    case Skipped(token) => token
  }

  function TokensOf(entries: seq<Entry>): (tokens: seq<string>)
    ensures |tokens| == |entries|
    ensures forall k :: 0 <= k < |entries| ==> tokens[k] == TokenOf(entries[k])
  {
    if entries == [] then [] else [TokenOf(entries[0])] + TokensOf(entries[1..])
  }

  /** `tail` reports the tokens `kept`: all of them, or, if it stopped, the
      ones before the token it stopped at. */
  predicate Reports(tail: Tail, kept: seq<string>)
  {
    && (tail.stoppedAt.None? ==> TokensOf(tail.entries) == kept)
    && (tail.stoppedAt.Some? ==>
          && |tail.entries| < |kept|
          && TokensOf(tail.entries) + [tail.stoppedAt.value] == kept[..|tail.entries| + 1])
  }

  lemma PrependReports(e: Entry, tail: Tail, kept: seq<string>)
    requires Reports(tail, kept)
    ensures Reports(Prepend(e, tail), [TokenOf(e)] + kept)
  {
    var token := TokenOf(e);
    assert TokensOf([e] + tail.entries) == [token] + TokensOf(tail.entries) by {
      assert ([e] + tail.entries)[1..] == tail.entries;
    }
    if tail.stoppedAt.Some? {
      assert ([token] + kept)[..|tail.entries| + 2] == [token] + kept[..|tail.entries| + 1];
    }
  }

  /** The loop reports every kept token once, in order; if it stopped, the
      entries are those of the kept tokens before the one it stopped at, which
      is a token whose decoder raised (StopIsMalformed). */
  lemma {:induction false} ProcessReportsKeptTokens(kind: string, tokens: seq<string>)
    ensures Reports(Process(kind, tokens), Kept(tokens))
  {
    if tokens != [] {
      var token := tokens[0];
      var rest := tokens[1..];
      ProcessReportsKeptTokens(kind, rest);
      var tail := Process(kind, rest);
      if token == "1" {
        assert Process(kind, tokens) == tail;
        assert Kept(tokens) == Kept(rest);
      } else {
        assert Kept(tokens) == [token] + Kept(rest);
        if |token| < 14 {
          assert Process(kind, tokens) == Prepend(Skipped(token), tail);
          PrependReports(Skipped(token), tail, Kept(rest));
        } else if !SplitToken(kind, token).decoded.Malformed? {
          var e := Parsed(SplitToken(kind, token));
          assert Process(kind, tokens) == Prepend(e, tail);
          PrependReports(e, tail, Kept(rest));
        } else {
          assert Process(kind, tokens) == Tail([], Some(token));
        }
      }
    }
  }

  /** A short token is reported as Skipped, a long one as the record that
      SplitToken makes of it for the command word `kind`, whose payload
      decoded without error. */
  predicate ClassifiedEntry(kind: string, e: Entry)
  {
    && (e.Skipped? <==> |TokenOf(e)| < 14)
    && (e.Parsed? ==>
          && |TokenOf(e)| >= 14
          && e.record == SplitToken(kind, TokenOf(e))
          && e.record.kind == kind
          && !e.record.decoded.Malformed?)
  }

  predicate Classified(kind: string, entries: seq<Entry>)
  {
    forall k :: 0 <= k < |entries| ==> ClassifiedEntry(kind, entries[k])
  }

  lemma PrependClassified(kind: string, e: Entry, entries: seq<Entry>)
    requires Classified(kind, entries) && ClassifiedEntry(kind, e)
    ensures Classified(kind, [e] + entries)
  {
    var all := [e] + entries;
    forall k | 0 <= k < |all|
      ensures ClassifiedEntry(kind, all[k])
    {
      if k > 0 {
        assert all[k] == entries[k - 1];
      }
    }
  }

  /** Every entry the loop reports is classified that way. */
  lemma {:induction false} ProcessClassifiesTokens(kind: string, tokens: seq<string>)
    ensures Classified(kind, Process(kind, tokens).entries)
  {
    if tokens != [] {
      var token := tokens[0];
      var rest := tokens[1..];
      ProcessClassifiesTokens(kind, rest);
      var tail := Process(kind, rest);
      if token == "1" {
        assert Process(kind, tokens) == tail;
      } else if |token| < 14 {
        assert Process(kind, tokens) == Prepend(Skipped(token), tail);
        PrependClassified(kind, Skipped(token), tail.entries);
      } else if !SplitToken(kind, token).decoded.Malformed? {
        var e := Parsed(SplitToken(kind, token));
        assert Process(kind, tokens) == Prepend(e, tail);
        PrependClassified(kind, e, tail.entries);
      } else {
        assert Process(kind, tokens) == Tail([], Some(token));
      }
    }
  }

  lemma ConcatAssoc(e: Entry, xs: seq<Entry>, ys: seq<Entry>)
    ensures [e] + (xs + ys) == ([e] + xs) + ys
  {
  }

  /** Processing is compositional: the tokens after a skipped or decoded token
      are processed as if they came alone. Only a raised error stops it. */
  lemma {:induction false} ProcessAppend(kind: string, front: seq<string>, back: seq<string>)
    ensures Process(kind, front + back) ==
      var first := Process(kind, front);
      if first.stoppedAt.Some? then first
      else var second := Process(kind, back); Tail(first.entries + second.entries, second.stoppedAt)
  {
    if front == [] {
      assert front + back == back;
    } else {
      assert (front + back)[0] == front[0] && (front + back)[1..] == front[1..] + back;
      var token := front[0];
      ProcessAppend(kind, front[1..], back);
      var first := Process(kind, front[1..]);
      var second := Process(kind, back);
      if first.stoppedAt.None? && token != "1" {
        if |token| < 14 {
          ConcatAssoc(Skipped(token), first.entries, second.entries);
        } else {
          ConcatAssoc(Parsed(SplitToken(kind, token)), first.entries, second.entries);
        }
      }
    }
  }

  /** A Done or Raised outcome, the only ones that carry entries, comes out
      exactly of the bodies that are not blank, not a ping, have at least two
      words and are headed by setCAN, getCAN or ackCAN. */
  lemma UMessageGuards(message: string)
    ensures var m := Strip(message);
      (UMessage(message).Done? || UMessage(message).Raised?) <==>
        m != [] && !StartsWith(m, "Ping") && |Split(m)| >= 2 && Split(m)[0] in Kinds
    ensures UMessage(message).Done? || UMessage(message).Raised? ==>
      UMessage(message).kind == Split(Strip(message))[0]
    ensures UMessage(message).Done? || UMessage(message).Raised? ==>
      var words := Split(Strip(message));
      var tail := Process(words[0], words[1..]);
      && UMessage(message).entries == tail.entries
      && (UMessage(message).Done? <==> tail.stoppedAt.None?)
      && (UMessage(message).Raised? ==> tail.stoppedAt == Some(UMessage(message).token))
  {
    var m := Strip(message);
    if m != [] && !StartsWith(m, "Ping") {
      var words := Split(m);
      if |words| >= 2 && words[0] in Kinds {
        var tail := Process(words[0], words[1..]);
        assert UMessage(message) == if tail.stoppedAt.None? then Done(words[0], tail.entries)
          else Raised(words[0], tail.entries, tail.stoppedAt.value);
      }
    }
  }

  /** The loop stops only at a token long enough to be split whose payload
      its decoder could not read. */
  lemma {:induction false} StopIsMalformed(kind: string, tokens: seq<string>)
    ensures var t := Process(kind, tokens);
      t.stoppedAt.Some? ==>
        && t.stoppedAt.value in tokens
        && |t.stoppedAt.value| >= 14
        && SplitToken(kind, t.stoppedAt.value).decoded.Malformed?
  {
    if tokens != [] {
      StopIsMalformed(kind, tokens[1..]);
    }
  }

  /** A body of only the keep-alive token "1" yields no entries. */
  lemma KeepAliveOnly(kind: string, n: nat)
    ensures Process(kind, seq(n, _ => "1")) == Tail([], None)
  {
    ProcessReportsKeptTokens(kind, seq(n, _ => "1"));
    KeptOfOnes(n);
  }

  lemma {:induction false} KeptOfOnes(n: nat)
    ensures Kept(seq(n, _ => "1")) == []
  {
    if n > 0 {
      assert seq(n, _ => "1")[1..] == seq(n - 1, _ => "1");
      KeptOfOnes(n - 1);
    }
  }
}
