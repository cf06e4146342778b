/**
 * The text-message parser of `handle_message`: choose the delimiter, split
 * into fields, require exactly three, strip them and reject empty ones.
 */
module MessageParser {
  import opened Wrappers
  import opened Strings

  /** The outcome of parsing one message, one constructor per reply. */
  datatype ParseResult =
    | Ok(nombre: string, monto: string, numero: string)
    | BadFormat   // neither '|' nor ',' occurs: the "formato incorrecto" reply
    | WrongCount  // the split gave other than three fields: the "exactamente 3 datos" reply
    | EmptyField  // a field is empty after stripping: the "campos obligatorios" reply

  /** The delimiter: '|' whenever the text holds one, otherwise ',' if it holds one. */
  function Delimiter(text: string): (d: Option<char>)
    ensures d == Some('|') <==> '|' in text
    ensures d == Some(',') <==> '|' !in text && ',' in text
    ensures d == None <==> '|' !in text && ',' !in text
  {
    if '|' in text then Some('|') else if ',' in text then Some(',') else None
  }

  /** The three-field check and the empty-field check on the split pieces. */
  function ParseFields(datos: seq<string>): ParseResult
  {
    if |datos| == 3 then
      var nombre, monto, numero := Strip(datos[0]), Strip(datos[1]), Strip(datos[2]);
      if nombre == [] || monto == [] || numero == [] then EmptyField else Ok(nombre, monto, numero)
    else
      WrongCount
  }

  function ParseMessage(text: string): ParseResult
  {
    match Delimiter(text)
    case None => BadFormat
    case Some(d) => ParseFields(Split(text, d))
  }

  /** A message is refused for its format exactly when it holds neither delimiter. */
  lemma ParseBadFormat(text: string)
    ensures ParseMessage(text) == BadFormat <==> '|' !in text && ',' !in text
  {
  }

  /**
   * With a delimiter present, the field count is wrong exactly when the
   * delimiter does not occur exactly twice.
   */
  lemma ParseWrongCount(text: string)
    ensures ParseMessage(text) == WrongCount
            <==> Delimiter(text).Some? && Count(text, Delimiter(text).value) != 2
  {
    if Delimiter(text).Some? {
      SplitCount(text, Delimiter(text).value);
    }
  }

  /** None of the three pieces is all white space. */
  predicate NoBlankField(datos: seq<string>)
    requires |datos| == 3
  {
    !AllSpace(datos[0]) && !AllSpace(datos[1]) && !AllSpace(datos[2])
  }

  /** The field checks accept exactly three pieces none of which is all white space. */
  lemma ParseFieldsOk(datos: seq<string>)
    ensures ParseFields(datos).Ok? <==> |datos| == 3 && NoBlankField(datos)
    ensures ParseFields(datos) == EmptyField <==> |datos| == 3 && !NoBlankField(datos)
  {
  }

  lemma JoinThree(datos: seq<string>, d: char)
    requires |datos| == 3
    ensures Join(datos, d) == datos[0] + [d] + datos[1] + [d] + datos[2]
  {
    assert Join(datos[1..][1..], d) == datos[2];
    assert Join(datos[1..], d) == datos[1] + [d] + datos[2];
  }

  /**
   * A receipt is requested exactly when the split gives three pieces of
   * which none is all white space.
   */
  lemma ParseOk(text: string)
    ensures ParseMessage(text).Ok?
            <==> Delimiter(text).Some?
                 && |Split(text, Delimiter(text).value)| == 3
                 && NoBlankField(Split(text, Delimiter(text).value))
  {
    if Delimiter(text).Some? {
      ParseFieldsOk(Split(text, Delimiter(text).value));
    }
  }

  /**
   * An accepted message holds the delimiter exactly twice; its fields are the
   * stripped pieces, and the raw pieces rejoined with the delimiter give back
   * the message.
   */
  lemma ParseOkRejoins(text: string)
    requires ParseMessage(text).Ok?
    ensures var d := Delimiter(text).value;
            var datos := Split(text, d);
            && Count(text, d) == 2
            && |datos| == 3
            && datos[0] + [d] + datos[1] + [d] + datos[2] == text
            && ParseMessage(text) == Ok(Strip(datos[0]), Strip(datos[1]), Strip(datos[2]))
  {
    var d := Delimiter(text).value;
    var datos := Split(text, d);
    assert ParseMessage(text) == ParseFields(datos);
    SplitCount(text, d);
    JoinSplit(text, d);
    JoinThree(datos, d);
  }

  /**
   * Conversely, three pieces without '|', none all white space, joined
   * with '|' are accepted, with the stripped pieces as the fields.
   */
  lemma ParseJoin(a: string, b: string, c: string)
    requires '|' !in a && '|' !in b && '|' !in c
    requires !AllSpace(a) && !AllSpace(b) && !AllSpace(c)
    ensures ParseMessage(a + ['|'] + b + ['|'] + c) == Ok(Strip(a), Strip(b), Strip(c))
  {
    var t := a + ['|'] + b + ['|'] + c;
    assert t[|a|] == '|';
    JoinThree([a, b, c], '|');
    SplitJoin([a, b, c], '|');
    ParseFieldsOk([a, b, c]);
  }

  /**
   * An empty-field refusal happens exactly when the split gives three pieces
   * and one of them is all white space.
   */
  lemma ParseEmptyField(text: string)
    ensures ParseMessage(text) == EmptyField
            <==> Delimiter(text).Some?
                 && |Split(text, Delimiter(text).value)| == 3
                 && !NoBlankField(Split(text, Delimiter(text).value))
  {
    if Delimiter(text).Some? {
      ParseFieldsOk(Split(text, Delimiter(text).value));
    }
  }

  /** A field as the parser hands it on: non-empty, stripped and free of the delimiter. */
  predicate CleanField(f: string, d: char) {
    f != [] && !IsSpace(f[0]) && !IsSpace(f[|f| - 1]) && d !in f
  }

  /** Stripping a piece that holds no delimiter leaves a field free of it. */
  lemma StripKeepsOut(p: string, d: char)
    requires d !in p
    ensures d !in Strip(p)
  {
    StripInfix(p);
    var k := StripStart(p);
    assert Strip(p) == p[k..k + |Strip(p)|];
  }

  /**
   * The fields of an accepted message are non-empty, carry no surrounding
   * white space and hold no occurrence of the chosen delimiter.
   */
  lemma ParseOkFields(text: string)
    requires ParseMessage(text).Ok?
    ensures var r := ParseMessage(text);
            var d := Delimiter(text).value;
            CleanField(r.nombre, d) && CleanField(r.monto, d) && CleanField(r.numero, d)
  {
    var d := Delimiter(text).value;
    var datos := Split(text, d);
    assert ParseMessage(text) == Ok(Strip(datos[0]), Strip(datos[1]), Strip(datos[2]));
    SplitPiecesFree(text, d);
    StripKeepsOut(datos[0], d);
    StripKeepsOut(datos[1], d);
    StripKeepsOut(datos[2], d);
  }
}
