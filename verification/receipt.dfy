/**
 * The receipt itself: which font is used, where each field is drawn and in
 * which colour, and how one incoming text message turns into a reply.
 * Drawing is modelled as the list of text-drawing commands the generator
 * issues on its copy of the template.
 */
module Receipt {
  import opened Wrappers
  import opened MessageParser
  import opened Timestamp
  import Strings
  import AmountFormat
  import PhoneFormat

  /** Every field is drawn at this pixel size. */
  const FontSize: nat := 42

  /** The font files tried, in order, before the built-in font. */
  const FontFiles: seq<string> :=
    ["Montserrat-Light.ttf", "Montserrat-Regular.ttf", "Montserrat.ttf", "Poppins-Light.ttf", "segoeui.ttf"]

  datatype Font = TrueType(file: string, size: nat) | BuiltIn

  /** The position of the first file that loads, or the length if none does. */
  function FirstLoadable(files: seq<string>, loads: string -> bool): (k: nat)
    ensures k <= |files|
    ensures k < |files| ==> loads(files[k])
    ensures forall j :: 0 <= j < k ==> !loads(files[j])
  {
    if files == [] then 0 else if loads(files[0]) then 0 else 1 + FirstLoadable(files[1..], loads)
  }

  /**
   * The chain of `ImageFont.truetype` attempts ending in `load_default`:
   * `loads(f)` says whether the font file `f` can be opened.
   */
  function ResolveFont(loads: string -> bool): (f: Font)
    ensures f.TrueType? ==>
              && f.size == FontSize
              && exists k :: 0 <= k < |FontFiles| && FontFiles[k] == f.file && loads(f.file)
                             && forall j :: 0 <= j < k ==> !loads(FontFiles[j])
    ensures f == BuiltIn <==> forall j :: 0 <= j < |FontFiles| ==> !loads(FontFiles[j])
  {
    var k := FirstLoadable(FontFiles, loads);
    if k < |FontFiles| then TrueType(FontFiles[k], FontSize) else BuiltIn
  }

  /** The fields of a receipt, top to bottom. */
  datatype Field = Nombre | Monto | Numero | Fecha | Referencia

  datatype Point = Point(x: nat, y: nat)

  /** The pixel coordinates of each field on the template. */
  function Position(f: Field): Point {
    match f
    case Nombre => Point(84, 1033)
    case Monto => Point(84, 1174)
    case Numero => Point(84, 1320)
    case Fecha => Point(84, 1460)
    case Referencia => Point(84, 1613)
  }

  const DrawOrder: seq<Field> := [Nombre, Monto, Numero, Fecha, Referencia]

  /** The fields form one left-aligned column, drawn top to bottom. */
  lemma LayoutColumn()
    ensures |DrawOrder| == 5
    ensures forall i, j :: 0 <= i < j < 5 ==>
              DrawOrder[i] != DrawOrder[j]
              && Position(DrawOrder[i]).x == Position(DrawOrder[j]).x
              && Position(DrawOrder[i]).y < Position(DrawOrder[j]).y
  {
  }

  datatype Rgb = Rgb(r: nat, g: nat, b: nat)

  /** Near-black with a faint violet tint, used for every field. */
  const TextColour: Rgb := Rgb(20, 0, 35)

  datatype DrawText = DrawText(at: Point, text: string, colour: Rgb, font: Font)

  /** The texts of one receipt, top to bottom: its `draw.text` calls drawn in order. */
  function Place(texts: seq<string>, font: Font): (ops: seq<DrawText>)
    requires |texts| == 5
    ensures |ops| == 5
  {
    seq(5, i requires 0 <= i < 5 => DrawText(Position(DrawOrder[i]), texts[i], TextColour, font))
  }

  /**
   * The `draw.text` calls of one receipt, in order: the name as given, the
   * amount, the grouped phone number, the date line and the reference.
   */
  function DrawReceipt(nombre: string, cents: int, numero: string, t: Clock, font: Font): (ops: seq<DrawText>)
    requires ValidClock(t)
    ensures |ops| == 5
  {
    Place([nombre, AmountFormat.FormatAmount(cents), PhoneFormat.FormatPhone(numero), FormatDate(t), Reference(t)],
          font)
  }

  /**
   * Each text is drawn at its field's place on the template, in the one text
   * colour and the one font; the places form a column read top to bottom.
   */
  lemma PlaceLayout(texts: seq<string>, font: Font)
    requires |texts| == 5
    ensures var ops := Place(texts, font);
            && (forall i :: 0 <= i < 5 ==>
                  && ops[i].at == Position(DrawOrder[i]) && ops[i].colour == TextColour
                  && ops[i].font == font && ops[i].text == texts[i])
            && (forall i, j :: 0 <= i < j < 5 ==> ops[i].at.x == ops[j].at.x && ops[i].at.y < ops[j].at.y)
  {
    LayoutColumn();
  }

  /** The receipt's fields are placed as the layout says, each with its own text. */
  lemma DrawReceiptLayout(nombre: string, cents: int, numero: string, t: Clock, font: Font)
    requires ValidClock(t)
    ensures var ops := DrawReceipt(nombre, cents, numero, t, font);
            && (forall i :: 0 <= i < 5 ==>
                  ops[i].at == Position(DrawOrder[i]) && ops[i].colour == TextColour && ops[i].font == font)
            && (forall i, j :: 0 <= i < j < 5 ==> ops[i].at.x == ops[j].at.x && ops[i].at.y < ops[j].at.y)
            && ops[0].text == nombre
            && ops[1].text == AmountFormat.FormatAmount(cents)
            && ops[2].text == PhoneFormat.FormatPhone(numero)
            && ops[3].text == FormatDate(t)
            && ops[4].text == Reference(t)
  {
    PlaceLayout([nombre, AmountFormat.FormatAmount(cents), PhoneFormat.FormatPhone(numero), FormatDate(t), Reference(t)],
                font);
  }

  /**
   * Everything drawn can be read back: the name verbatim, the amount in
   * cents, the phone number, the date and time to the minute, and the time
   * to the hundredth of a second.
   */
  lemma DrawReceiptReadBack(nombre: string, cents: int, numero: string, t: Clock, font: Font)
    requires ValidClock(t)
    ensures var ops := DrawReceipt(nombre, cents, numero, t, font);
            && ops[0].text == nombre
            && AmountFormat.ReadAmount(AmountFormat.SwapSeparators(ops[1].text)) == Some(cents)
            && PhoneFormat.Ungroup(ops[2].text) == numero
            && ReadDate(ops[3].text) == Some(DateFields(t.day, t.month, t.year, t.hour, t.minute))
            && ReadReference(ops[4].text) == Some((t.hour, t.minute, t.second, t.micro / 10000))
  {
    DrawReceiptLayout(nombre, cents, numero, t, font);
    AmountFormat.AmountRoundTrip(cents);
    PhoneFormat.UngroupFormat(numero);
    DateRoundTrip(t);
    ReferenceRoundTrip(t);
  }

  /** The bot's reply to one text message. */
  datatype Reply =
    | Unavailable     // the template could not be loaded at start-up
    | FormatHelp      // neither delimiter in the message
    | CountHelp       // not exactly three fields
    | FieldsRequired  // a field is empty after stripping
    | Failure         // the amount is not a number
    | Photo(drawing: seq<DrawText>, captionName: string)

  /**
   * `handle_message`. `ready` says whether the generator was built;
   * `toCents` stands for `float(monto)` (None where it raises); `loads`
   * says which font files open; `t` is the clock reading.
   */
  function HandleMessage(ready: bool, text: string, toCents: string -> Option<int>,
                         loads: string -> bool, t: Clock): (r: Reply)
    requires ValidClock(t)
    ensures r.Photo? ==> |r.drawing| == 5
  {
    if !ready then Unavailable
    else
      match ParseMessage(text)
      case BadFormat => FormatHelp
      case WrongCount => CountHelp
      case EmptyField => FieldsRequired
      case Ok(nombre, monto, numero) =>
        match toCents(monto)
        case None => Failure
        case Some(cents) => Photo(DrawReceipt(nombre, cents, numero, t, ResolveFont(loads)), nombre)
  }

  /**
   * A receipt is sent exactly when the generator is ready, the message
   * parses and its amount is a number; it is captioned with the stripped
   * name and carries the amount and the phone number of the message.
   */
  lemma HandleMessagePhoto(ready: bool, text: string, toCents: string -> Option<int>,
                           loads: string -> bool, t: Clock)
    requires ValidClock(t)
    ensures var r := HandleMessage(ready, text, toCents, loads, t);
            var p := ParseMessage(text);
            && (r.Photo? <==> ready && p.Ok? && toCents(p.monto).Some?)
            && (r.Photo? ==>
                  && r.captionName == p.nombre == r.drawing[0].text
                  && CleanField(r.captionName, Delimiter(text).value)
                  && AmountFormat.ReadAmount(AmountFormat.SwapSeparators(r.drawing[1].text))
                     == Some(toCents(p.monto).value)
                  && PhoneFormat.Ungroup(r.drawing[2].text) == p.numero)
  {
    var r := HandleMessage(ready, text, toCents, loads, t);
    var p := ParseMessage(text);
    if r.Photo? {
      ParseOkFields(text);
      DrawReceiptReadBack(p.nombre, toCents(p.monto).value, p.numero, t, ResolveFont(loads));
    }
  }

  /**
   * Each refusal answers exactly its own fault, in the order the bot checks
   * them: delimiter, field count, empty field.
   */
  lemma HandleMessageRefusals(ready: bool, text: string, toCents: string -> Option<int>,
                              loads: string -> bool, t: Clock)
    requires ValidClock(t)
    ensures var r := HandleMessage(ready, text, toCents, loads, t);
            && (r == Unavailable <==> !ready)
            && (r == FormatHelp <==> ready && '|' !in text && ',' !in text)
            && (r == CountHelp <==> ready && Delimiter(text).Some?
                                    && Strings.Count(text, Delimiter(text).value) != 2)
            && (r == FieldsRequired <==> ready && Delimiter(text).Some?
                                         && |Strings.Split(text, Delimiter(text).value)| == 3
                                         && !NoBlankField(Strings.Split(text, Delimiter(text).value)))
  {
    ParseBadFormat(text);
    ParseWrongCount(text);
    ParseEmptyField(text);
  }
}
