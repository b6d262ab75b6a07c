/** The well-formedness of a notifications.email message body. */
module EmailNotification {
  import opened Prelude
  import opened Json
  import Text

  datatype Email = Email(messageId: string, userId: string, email: string, eventType: string, createdAt: string)

  /** A message body: some bytes that are not JSON, or a document. */
  datatype Body = NotJson | Document(doc: Json)

  datatype Malformed = InvalidJson | NotAnObject | MissingField(name: string)

  datatype Parsed = Ok(email: Email) | Bad(why: Malformed)

  const REQUIRED_FIELDS: seq<string> := ["message_id", "user_id", "email", "event_type", "created_at"]

  /** What String.prototype.trim removes: ECMAScript's WhiteSpace and LineTerminator. */
  predicate IsJsSpace(c: char) {
    var n := c as int;
    || 0x09 <= n <= 0x0D || n == 0x20 || n == 0xA0 || n == 0x1680 || 0x2000 <= n <= 0x200A
    || n == 0x2028 || n == 0x2029 || n == 0x202F || n == 0x205F || n == 0x3000 || n == 0xFEFF
  }

  predicate Blank(s: string) {
    s == "" || (IsJsSpace(s[0]) && Blank(s[1..]))
  }

  /** Nothing but white space. */
  lemma {:induction false} BlankMeans(s: string)
    ensures Blank(s) <==> forall i :: 0 <= i < |s| ==> IsJsSpace(s[i])
  {
    if s != "" {
      BlankMeans(s[1..]);
      assert s == [s[0]] + s[1..];
    }
  }

  /** What the consumer trims and what the Go services trim differ in two characters: U+0085 and U+FEFF. */
  lemma TrimsDiffer(c: char)
    ensures IsJsSpace(c) == Text.IsSpace(c) <==> c as int != 0x85 && c as int != 0xFEFF
    ensures c as int == 0x85 ==> Text.IsSpace(c)
    ensures c as int == 0xFEFF ==> IsJsSpace(c)
  {
  }

  predicate HasText(fields: map<string, Json>, name: string) {
    name in fields && fields[name].Str? && !Blank(fields[name].s)
  }

  predicate AllText(fields: map<string, Json>, names: seq<string>) {
    forall i :: 0 <= i < |names| ==> HasText(fields, names[i])
  }

  /** The first field, in order, that is absent, not a string or blank. */
  function FirstBad(fields: map<string, Json>, names: seq<string>): Option<string> {
    if names == [] then None
    else if HasText(fields, names[0]) then FirstBad(fields, names[1..])
    else Some(names[0])
  }

  /** The texts are kept as they are, untrimmed. */
  function Parse(body: Body): Parsed {
    if body.NotJson? then Bad(InvalidJson)
    else if !body.doc.Obj? then Bad(NotAnObject)
    else
      var fields := body.doc.fields;
      FirstBadMeans(fields, REQUIRED_FIELDS);
      match FirstBad(fields, REQUIRED_FIELDS)
      case Some(name) => Bad(MissingField(name))
      case None =>
        assert HasText(fields, REQUIRED_FIELDS[0]) && HasText(fields, REQUIRED_FIELDS[1])
          && HasText(fields, REQUIRED_FIELDS[2])
            && HasText(fields, REQUIRED_FIELDS[3]) && HasText(fields, REQUIRED_FIELDS[4]);
        Ok(Email(fields["message_id"].s, fields["user_id"].s, fields["email"].s, fields["event_type"].s,
          fields["created_at"].s))
  }

  lemma {:induction false} FirstBadMeans(fields: map<string, Json>, names: seq<string>)
    ensures match FirstBad(fields, names)
      case None => AllText(fields, names)
      case Some(name) =>
        exists k :: 0 <= k < |names| && names[k] == name && !HasText(fields, name) && AllText(fields, names[..k])
  {
    if names != [] && HasText(fields, names[0]) {
      FirstBadMeans(fields, names[1..]);
      match FirstBad(fields, names[1..])
      case None =>
        assert names == [names[0]] + names[1..];
      case Some(name) =>
        var k :| 0 <= k < |names[1..]| && names[1..][k] == name && !HasText(fields, name)
          && AllText(fields, names[1..][..k]);
        assert names[k + 1] == name && names[..k + 1] == [names[0]] + names[1..][..k];
    }
  }

  /** The document an auth-service producer sends. */
  function Encode(e: Email): Body {
    Document(Obj(map["message_id" := Str(e.messageId), "user_id" := Str(e.userId), "email" := Str(e.email),
                     "event_type" := Str(e.eventType), "created_at" := Str(e.createdAt)]))
  }

  predicate HasNoBlank(e: Email) {
    !Blank(e.messageId) && !Blank(e.userId) && !Blank(e.email) && !Blank(e.eventType) && !Blank(e.createdAt)
  }

  /** A produced message is well-formed exactly when none of its texts is blank, and then reads back unchanged. */
  lemma ProducedMessagesReadBack(e: Email)
    ensures Parse(Encode(e)).Ok? <==> HasNoBlank(e)
    ensures HasNoBlank(e) ==> Parse(Encode(e)) == Ok(e)
  {
    var fields := Encode(e).doc.fields;
    FirstBadMeans(fields, REQUIRED_FIELDS);
    assert REQUIRED_FIELDS[0] == "message_id" && REQUIRED_FIELDS[1] == "user_id" && REQUIRED_FIELDS[2] == "email"
        && REQUIRED_FIELDS[3] == "event_type" && REQUIRED_FIELDS[4] == "created_at";
  }

  /** Any document is well-formed exactly when it is an object whose five fields are texts and not blank. */
  lemma WellFormedExactly(body: Body)
    ensures Parse(body).Ok? <==>
      body.Document? && body.doc.Obj? && forall name :: name in REQUIRED_FIELDS ==> HasText(body.doc.fields, name)
    ensures Parse(body).Ok? ==> HasNoBlank(Parse(body).email)
  {
    if body.Document? && body.doc.Obj? {
      var fields := body.doc.fields;
      FirstBadMeans(fields, REQUIRED_FIELDS);
      if AllText(fields, REQUIRED_FIELDS) {
        assert HasText(fields, REQUIRED_FIELDS[0]) && HasText(fields, REQUIRED_FIELDS[1])
          && HasText(fields, REQUIRED_FIELDS[2])
            && HasText(fields, REQUIRED_FIELDS[3]) && HasText(fields, REQUIRED_FIELDS[4]);
      }
    }
  }

  /** The field at k is the first required one that is absent, not a text or blank. */
  predicate FirstBadAt(fields: map<string, Json>, k: nat) {
    && k < |REQUIRED_FIELDS| && !HasText(fields, REQUIRED_FIELDS[k])
    && forall i :: 0 <= i < k ==> HasText(fields, REQUIRED_FIELDS[i])
  }

  ghost predicate IsFirstBad(fields: map<string, Json>, name: string) {
    exists k: nat :: FirstBadAt(fields, k) && REQUIRED_FIELDS[k] == name
  }

  lemma FirstBadIsFirst(fields: map<string, Json>)
    ensures match FirstBad(fields, REQUIRED_FIELDS)
      case None => AllText(fields, REQUIRED_FIELDS)
      case Some(name) => forall other :: IsFirstBad(fields, other) <==> other == name
  {
    FirstBadMeans(fields, REQUIRED_FIELDS);
    match FirstBad(fields, REQUIRED_FIELDS)
    case None =>
    case Some(name) =>
      var k :| 0 <= k < |REQUIRED_FIELDS| && REQUIRED_FIELDS[k] == name && !HasText(fields, name)
        && AllText(fields, REQUIRED_FIELDS[..k]);
      forall i | 0 <= i < k ensures HasText(fields, REQUIRED_FIELDS[i]) {
        assert REQUIRED_FIELDS[i] == REQUIRED_FIELDS[..k][i];
      }
      assert FirstBadAt(fields, k);
  }

  /** Which error a malformed body is reported with. */
  lemma ParseReports(body: Body)
    ensures Parse(body) == Bad(InvalidJson) <==> body.NotJson?
    ensures Parse(body) == Bad(NotAnObject) <==> body.Document? && !body.doc.Obj?
    ensures forall name :: Parse(body) == Bad(MissingField(name)) <==>
      body.Document? && body.doc.Obj? && IsFirstBad(body.doc.fields, name)
  {
    if body.Document? && body.doc.Obj? {
      FirstBadIsFirst(body.doc.fields);
    }
  }

  predicate HoldsText(fields: map<string, Json>, name: string, text: string) {
    name in fields && fields[name] == Str(text)
  }

  /** Which texts a well-formed body yields, whatever else it holds. */
  lemma ParseYieldsTheFields(body: Body)
    requires Parse(body).Ok?
    ensures body.Document? && body.doc.Obj?
    ensures var e, fields := Parse(body).email, body.doc.fields;
      && HoldsText(fields, "message_id", e.messageId) && HoldsText(fields, "user_id", e.userId)
      && HoldsText(fields, "email", e.email) && HoldsText(fields, "event_type", e.eventType)
      && HoldsText(fields, "created_at", e.createdAt)
  {
    var fields := body.doc.fields;
    FirstBadMeans(fields, REQUIRED_FIELDS);
    assert HasText(fields, REQUIRED_FIELDS[0]) && HasText(fields, REQUIRED_FIELDS[1])
      && HasText(fields, REQUIRED_FIELDS[2]) && HasText(fields, REQUIRED_FIELDS[3])
      && HasText(fields, REQUIRED_FIELDS[4]);
  }
}
