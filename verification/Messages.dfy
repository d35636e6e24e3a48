/** Control-connection messages, with a tag that says what each is about. No step looks at the tag. */
module Messages {
  import opened HttpResponse
  import Decimal

  datatype Tag =
    | Plain
    | Opening(transfer: nat)                      // 150: a data transfer is about to start
    | Finished(transfer: nat)                     // 226, or 450 for an upload that was not stored
    | Aborted(transfer: nat)                      // 426: no data connection
    | Interim(request: nat, response: Response)   // 100 Continue
    | Answer(request: nat, response: Response)    // the final response to an HTTP request
    | Refusal(request: nat, response: Response)   // the final response 400 or 401

  datatype Message = Message(text: string, tag: Tag)

  /** An FTP reply (protocol/ftp/response/src/ftp_response.hpp). */
  function Reply(code: nat, text: string, tag: Tag): (m: Message)
    ensures m.tag == tag
  {
    Message(Decimal.ToString(code) + " " + text + "\r\n", tag)
  }

  /** What the data pump posts once a download is over. */
  function DoneReply(transfer: nat): Message {
    Reply(226, "Done", Finished(transfer))
  }

  predicate IsDone(m: Message) {
    m.tag.Finished? && m == DoneReply(m.tag.transfer)
  }

  predicate IsHttp(tag: Tag) {
    tag.Interim? || tag.Answer? || tag.Refusal?
  }

  predicate IsFinal(tag: Tag) {
    tag.Answer? || tag.Refusal?
  }

  /** The reply that ends a transfer. */
  predicate Ends(tag: Tag, transfer: nat) {
    tag == Finished(transfer) || tag == Aborted(transfer)
  }

  // ---------------------------------------------------------------- what a text says by itself

  /** The text begins like an FTP reply with this code. */
  predicate HasCode(text: string, code: nat) {
    Decimal.ToString(code) + " " <= text
  }

  /** A reply announces a transfer, ends one, or does neither, by its code alone. */
  predicate Announces(text: string) {
    HasCode(text, 150)
  }

  predicate EndsSome(text: string) {
    HasCode(text, 226) || HasCode(text, 450) || HasCode(text, 426)
  }

  /** Text and tag say the same about transfers. */
  ghost predicate Spelled(m: Message) {
    && (Announces(m.text) <==> m.tag.Opening?)
    && (m.tag.Finished? <==> HasCode(m.text, 226) || HasCode(m.text, 450))
    && (m.tag.Aborted? <==> HasCode(m.text, 426))
  }

  lemma {:induction false} DigitsEndAtSpace(x: string, u: string, y: string, v: string)
    requires Decimal.AllDigits(x) && Decimal.AllDigits(y) && x + " " + u == y + " " + v
    ensures x == y
  {
    var text := x + " " + u;
    assert text[0] == if x == "" then ' ' else x[0];
    assert text[0] == if y == "" then ' ' else y[0];
    if x != "" && y != "" {
      assert x[1..] + " " + u == text[1..] == y[1..] + " " + v;
      DigitsEndAtSpace(x[1..], u, y[1..], v);
      assert x == [x[0]] + x[1..] && y == [y[0]] + y[1..];
    }
  }

  /** The code ends at the first space, so no text has two. */
  lemma CodeIsUnique(a: nat, b: nat, rest: string)
    ensures HasCode(Decimal.ToString(a) + " " + rest, b) <==> a == b
  {
    hide Decimal.ToString, Decimal.Value;
    var text, y := Decimal.ToString(a) + " " + rest, Decimal.ToString(b);
    if HasCode(text, b) {
      assert text == y + " " + text[|y| + 1..];
      DigitsEndAtSpace(Decimal.ToString(a), rest, y, text[|y| + 1..]);
      Decimal.ValueOfToString(a);
      Decimal.ValueOfToString(b);
    }
  }

  lemma ReplyHasItsCode(code: nat, text: string, tag: Tag)
    ensures forall c :: HasCode(Reply(code, text, tag).text, c) <==> c == code
  {
    hide Decimal.ToString, HasCode;
    assert Reply(code, text, tag).text == Decimal.ToString(code) + " " + (text + "\r\n");
    forall c: nat ensures HasCode(Reply(code, text, tag).text, c) <==> c == code {
      CodeIsUnique(code, c, text + "\r\n");
    }
  }

  /** A reply is spelled as it is tagged if its code is the one for its tag. */
  lemma ReplySpelled(code: nat, text: string, tag: Tag)
    requires !IsHttp(tag)
    requires tag.Opening? <==> code == 150
    requires tag.Finished? <==> code == 226 || code == 450
    requires tag.Aborted? <==> code == 426
    ensures Spelled(Reply(code, text, tag))
  {
    hide Reply, HasCode;
    ReplyHasItsCode(code, text, tag);
  }

  /** An HTTP response has no code of this kind. */
  lemma HttpSpelled(m: Message)
    requires IsHttp(m.tag) && m.text == Serialized(m.tag.response)
    ensures Spelled(m)
  {
    hide Decimal.ToString;
    assert m.text[0] == 'H';
    forall c: nat ensures !HasCode(m.text, c) {
      assert Decimal.IsDigit(Decimal.ToString(c)[0]);
    }
  }

  /** What a reply looks like: three digits, a space, the text and CRLF (section 4.2 of RFC 959). */
  lemma DoneLine(transfer: nat)
    ensures Reply(226, "Done", Finished(transfer)).text == "226 Done\r\n"
  {
    assert Decimal.ToString(2) == "2";
    assert Decimal.ToString(22) == "22";
    assert Decimal.ToString(226) == "226";
  }
}
