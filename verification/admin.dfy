/** The admin page: the add/edit form, the decimal text its hidden id and price inputs
    hold, and what a submit sends and keeps. The product list is the one
    `GET /api/products` returned. */
module Admin {
  import opened Wrappers
  import opened Api
  import opened Server

  // ------------------------------------------------------- decimal integers

  predicate IsDigit(c: char) {
    '0' <= c <= '9'
  }

  function DigitChar(d: nat): (c: char)
    requires d < 10
    ensures IsDigit(c) && c as int - '0' as int == d
  {
    "0123456789"[d]
  }

  predicate AllDigits(s: string) {
    forall i :: 0 <= i < |s| ==> IsDigit(s[i])
  }

  /** The value of a run of decimal digits. */
  function DigitsValue(s: string): nat
    requires AllDigits(s)
  {
    if |s| == 0 then 0
    else DigitsValue(s[..|s| - 1]) * 10 + (s[|s| - 1] as int - '0' as int)
  }

  /** `String(n)` for a non-negative integer: digits without leading zeros. */
  function NatToDecimal(n: nat): (s: string)
    ensures |s| >= 1 && AllDigits(s)
    ensures |s| > 1 ==> s[0] != '0'
  {
    if n < 10 then [DigitChar(n)] else NatToDecimal(n / 10) + [DigitChar(n % 10)]
  }

  /** `String(n)` for an integer: a minus sign before the magnitude's digits. */
  function IntToDecimal(i: int): (s: string)
    ensures |s| >= 1
    ensures i < 0 <==> s[0] == '-'
  {
    if i < 0 then "-" + NatToDecimal(-i) else NatToDecimal(i)
  }

  /** Length of the leading run of digits. */
  function DigitRun(s: string): (n: nat)
    ensures n <= |s| && AllDigits(s[..n])
    ensures n < |s| ==> !IsDigit(s[n])
  {
    if |s| == 0 || !IsDigit(s[0]) then 0
    else
      var k := DigitRun(s[1..]);
      assert s[..k + 1] == [s[0]] + s[1..][..k];
      k + 1
  }

  /** `parseInt(s)` in base 10: an optional sign, then the longest run of digits; with no
      digit the result is `NaN`, here `None`. */
  function ParseInt(s: string): (r: Option<int>)
    ensures var rest := if |s| > 0 && (s[0] == '-' || s[0] == '+') then s[1..] else s;
            r.Some? <==> |rest| > 0 && IsDigit(rest[0])
  {
    var negative := |s| > 0 && s[0] == '-';
    var rest := if |s| > 0 && (s[0] == '-' || s[0] == '+') then s[1..] else s;
    var n := DigitRun(rest);
    var magnitude: int := DigitsValue(rest[..n]);
    if n == 0 then None
    else Some(if negative then -magnitude else magnitude)
  }

  lemma {:induction false} DecimalValue(n: nat)
    ensures DigitsValue(NatToDecimal(n)) == n
  {
    if n >= 10 {
      DecimalValue(n / 10);
      var s := NatToDecimal(n);
      assert s[..|s| - 1] == NatToDecimal(n / 10);
    }
  }

  lemma DigitRunAll(s: string)
    requires AllDigits(s)
    ensures DigitRun(s) == |s|
  {
    if |s| > 0 {
      DigitRunAll(s[1..]);
    }
  }

  /** Reading back what `IntToDecimal` wrote gives the same integer. */
  lemma ParseIntRoundTrip(i: int)
    ensures ParseInt(IntToDecimal(i)) == Some(i)
  {
    var s := IntToDecimal(i);
    var m: nat := if i < 0 then -i else i;
    var digits := NatToDecimal(m);
    DecimalValue(m);
    DigitRunAll(digits);
    if i < 0 {
      assert s[1..] == digits;
    }
    assert digits[..|digits|] == digits;
  }

  // ------------------------------------------------------------------ form

  /** The heading and button texts: "add a new product" or "edit product". */
  datatype Mode = Creating | Editing

  /** The form's three inputs (the id input is hidden) and its mode. */
  datatype Form = Form(idField: string, nameField: string, priceField: string, mode: Mode)

  /** The form as the page opens it: every input empty, in create mode. */
  const BlankForm := Form("", "", "", Creating)

  /** `resetForm()` (also the cancel button): whatever the form held, every input is
      cleared and the form is back in create mode. */
  function ResetForm(f: Form): (r: Form)
    ensures r.idField == "" && r.nameField == "" && r.priceField == ""
    ensures r.mode == Creating
  {
    BlankForm
  }

  /** Resetting twice is resetting once, and a reset form is consistent. */
  lemma ResetIdempotent(f: Form)
    ensures ResetForm(ResetForm(f)) == ResetForm(f)
    ensures ModeMatchesId(ResetForm(f))
  {
  }

  /** The form is editing exactly when its hidden id input holds something. */
  predicate ModeMatchesId(f: Form) {
    f.mode == Editing <==> f.idField != ""
  }

  /** `editProduct(id)`: the first listed product with that id fills the form in edit mode;
      an id not in the list leaves the form as it was. */
  function EditProduct(products: seq<StoredProduct>, f: Form, id: int): (r: Form)
    ensures id !in StoredIds(products) ==> r == f
    ensures id in StoredIds(products) ==>
              r.mode == Editing &&
              ParseInt(r.idField) == Some(id) &&
              r.nameField == Get(products, id).value.name &&
              r.priceField == IntToDecimal(Get(products, id).value.price)
    ensures ModeMatchesId(f) ==> ModeMatchesId(r)
  {
    match Get(products, id)
    case None => f
    case Some(p) =>
      ParseIntRoundTrip(p.id);
      Form(IntToDecimal(p.id), p.name, IntToDecimal(p.price), Editing)
  }

  const MissingFieldsAlert := "Vui lòng nhập tên và giá!"
  const ErrorPrefix := "Lỗi: "
  const ConnectionAlert := "Lỗi kết nối đến server."

  /** The answer to `POST /api/products` as the page reads it: a parsed JSON body, or a
      failed request (network error, or an error page that is not JSON). */
  datatype SaveReply = Answered(success: bool, message: string) | SaveFailed

  /** The form afterwards, the request sent (if any), the alert shown, and whether the
      product list is fetched again. */
  datatype SubmitOutcome = SubmitOutcome(form: Form, sent: Option<SaveRequest>, alert: string, reload: bool)

  /** The request `handleFormSubmit()` sends, or `None` when the name or the price input
      is empty and it stops at the alert. `parsePrice` is `parseFloat` on the price input
      (`None` for `NaN`, sent as `null`). An empty id input sends no id; otherwise the id
      is `parseInt` of it. */
  function SubmitRequest(f: Form, parsePrice: string -> Option<int>): (r: Option<SaveRequest>)
    ensures r.None? <==> f.nameField == "" || f.priceField == ""
    ensures r.Some? ==> r.value.name == f.nameField && r.value.price == parsePrice(f.priceField)
    ensures r.Some? ==> (r.value.id.Some? <==> f.idField != "" && ParseInt(f.idField).Some?)
    ensures r.Some? && f.idField != "" ==> r.value.id == ParseInt(f.idField)
  {
    if f.nameField == "" || f.priceField == "" then None
    else Some(SaveRequest(
      if f.idField != "" then ParseInt(f.idField) else None,
      f.nameField,
      parsePrice(f.priceField)))
  }

  /** `handleFormSubmit()` with the server's answer `reply` passed in: a refused form only
      alerts; a success alerts the server's message, clears the form and reloads the
      list; an error answer or a failed request alerts and keeps the form. */
  function HandleFormSubmit(f: Form, parsePrice: string -> Option<int>, reply: SaveReply): (r: SubmitOutcome)
    ensures r.sent == SubmitRequest(f, parsePrice)
    ensures r.sent.None? ==> r.form == f && r.alert == MissingFieldsAlert && !r.reload
    ensures r.sent.Some? && reply.Answered? && reply.success ==>
              r.form == ResetForm(f) && r.alert == reply.message && r.reload
    ensures r.sent.Some? && reply.Answered? && !reply.success ==>
              r.form == f && r.alert == ErrorPrefix + reply.message && !r.reload
    ensures r.sent.Some? && reply.SaveFailed? ==>
              r.form == f && r.alert == ConnectionAlert && !r.reload
    ensures ModeMatchesId(f) ==> ModeMatchesId(r.form)
  {
    match SubmitRequest(f, parsePrice)
    case None => SubmitOutcome(f, None, MissingFieldsAlert, false)
    case Some(request) =>
      match reply
      case Answered(success, message) =>
        if success then SubmitOutcome(ResetForm(f), Some(request), message, true)
        else SubmitOutcome(f, Some(request), ErrorPrefix + message, false)
      case SaveFailed => SubmitOutcome(f, Some(request), ConnectionAlert, false)
  }

  /** After a reset (the cancel button, or a successful save) the next submit creates a
      product: the request carries no id. */
  lemma SubmitAfterResetCreates(f: Form, name: string, price: string, parsePrice: string -> Option<int>)
    requires name != "" && price != ""
    ensures var r := SubmitRequest(ResetForm(f).(nameField := name, priceField := price), parsePrice);
            r.Some? && !IsEdit(r.value)
  {
  }
}
