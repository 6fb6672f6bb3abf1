/** The checkout form of the shopping-cart view: the ordered validation
    chain of `handleCheckout`, the email-format regex, the form's state cells
    and the quantity controls of each cart line. */
module Checkout {
  import opened Common
  import opened Text
  import opened Cart

  const NameRequired := "Please enter your name"
  const EmailRequired := "Please enter your email"
  const EmailInvalid := "Please enter a valid email address"
  const CartEmpty := "Your cart is empty"
  const SubmitFailed := "Failed to create order. Please try again."

  // ------------------------------------------------------------ email format

  /** A character of the class `[^\s@]`. */
  predicate Plain(c: char) {
    !IsSpace(c) && c != '@'
  }

  /** `s[lo..hi]` is a non-empty run of `[^\s@]`. */
  predicate PlainRun(s: string, lo: nat, hi: nat) {
    lo < hi <= |s| && forall i :: lo <= i < hi ==> Plain(s[i])
  }

  /** `/^[^\s@]+@[^\s@]+\.[^\s@]+$/.test(s)`: the text splits as X '@' Y '.' Z
      with X, Y and Z non-empty runs of `[^\s@]`. */
  predicate EmailRegex(s: string) {
    exists a, d :: 0 <= a < d < |s| && EmailSplit(s, a, d)
  }

  /** The regex matches with its '@' at `a` and its '.' at `d`. */
  predicate EmailSplit(s: string, a: nat, d: nat) {
    a < d < |s| && s[a] == '@' && s[d] == '.' &&
    PlainRun(s, 0, a) && PlainRun(s, a + 1, d) && PlainRun(s, d + 1, |s|)
  }

  predicate NoSpace(s: string) {
    forall i :: 0 <= i < |s| ==> !IsSpace(s[i])
  }

  /** `s` has a '@' at `a` and nowhere else. */
  predicate OnlyAt(s: string, a: nat) {
    a < |s| && s[a] == '@' && forall i :: 0 <= i < |s| && s[i] == '@' ==> i == a
  }

  /** The text after index `a` holds a '.' that is neither its first nor its
      last character. */
  predicate InnerDot(s: string, a: nat) {
    exists d :: a + 1 < d < |s| - 1 && s[d] == '.'
  }

  /** The format in words: no white space, exactly one '@', something before
      it, and after it a '.' that is neither first nor last. */
  predicate EmailShape(s: string) {
    NoSpace(s) && exists a :: 0 < a < |s| && OnlyAt(s, a) && InnerDot(s, a)
  }

  lemma RegexToShape(s: string, a: nat, d: nat)
    requires EmailSplit(s, a, d)
    ensures EmailShape(s)
  {
    forall i | 0 <= i < |s| ensures !IsSpace(s[i]) && (s[i] == '@' ==> i == a) {
      if i != a && i != d {
        assert Plain(s[i]);
      }
    }
    assert OnlyAt(s, a);
    assert InnerDot(s, a);
  }

  lemma ShapeToRegex(s: string, a: nat, d: nat)
    requires NoSpace(s) && 0 < a < |s| && OnlyAt(s, a)
    requires a + 1 < d < |s| - 1 && s[d] == '.'
    ensures EmailRegex(s)
  {
    assert EmailSplit(s, a, d) by {
      forall i | 0 <= i < |s| && i != a ensures Plain(s[i]) {
      }
    }
  }

  /** The regex accepts exactly the addresses of the described shape. */
  lemma EmailRegexIffShape(s: string)
    ensures EmailRegex(s) <==> EmailShape(s)
  {
    if EmailRegex(s) {
      var a, d :| EmailSplit(s, a, d);
      RegexToShape(s, a, d);
    }
    if EmailShape(s) {
      var a :| 0 < a < |s| && OnlyAt(s, a) && InnerDot(s, a);
      var d :| a + 1 < d < |s| - 1 && s[d] == '.';
      ShapeToRegex(s, a, d);
    }
  }

  // -------------------------------------------------------- validation chain

  /** The message the first failing check of `handleCheckout` sets, or None
      when every check passes and the order is submitted. `!s.trim()` is
      written `Blank(s)`, which `Text.TrimEmptyIffBlank` shows equivalent. */
  function CheckoutError(customerName: string, customerEmail: string, cartSize: nat): Option<string> {
    if Blank(customerName) then Some(NameRequired)
    else if Blank(customerEmail) then Some(EmailRequired)
    else if !EmailRegex(customerEmail) then Some(EmailInvalid)
    else if cartSize == 0 then Some(CartEmpty)
    else None
  }

  /** Each message appears exactly when its own check fails and every
      earlier one passes; the order goes through exactly when the name is not
      blank, the email has the required shape and the cart is not empty. */
  lemma CheckoutErrorCases(customerName: string, customerEmail: string, cartSize: nat)
    ensures CheckoutError(customerName, customerEmail, cartSize) == Some(NameRequired) <==> Trim(customerName) == []
    ensures CheckoutError(customerName, customerEmail, cartSize) == Some(EmailRequired) <==>
              Trim(customerName) != [] && Trim(customerEmail) == []
    ensures CheckoutError(customerName, customerEmail, cartSize) == Some(EmailInvalid) <==>
              !Blank(customerName) && !Blank(customerEmail) && !EmailShape(customerEmail)
    ensures CheckoutError(customerName, customerEmail, cartSize) == Some(CartEmpty) <==>
              !Blank(customerName) && EmailShape(customerEmail) && cartSize == 0
    ensures CheckoutError(customerName, customerEmail, cartSize) == None <==>
              !Blank(customerName) && EmailShape(customerEmail) && cartSize > 0
  {
    TrimEmptyIffBlank(customerName);
    TrimEmptyIffBlank(customerEmail);
    EmailRegexIffShape(customerEmail);
    if EmailShape(customerEmail) {
      assert !IsSpace(customerEmail[0]);
    }
  }

  /** Validation only ever sets one of its four messages, never the
      submission-failure one, and lets nothing through for an empty cart. */
  lemma ValidationMessages(customerName: string, customerEmail: string, cartSize: nat)
    ensures CheckoutError(customerName, customerEmail, cartSize).Some? ==>
              CheckoutError(customerName, customerEmail, cartSize).value in [NameRequired, EmailRequired, EmailInvalid, CartEmpty]
    ensures CheckoutError(customerName, customerEmail, cartSize).GetOr("") != SubmitFailed
    ensures CheckoutError(customerName, customerEmail, cartSize).None? ==> cartSize > 0
  {
    var e := CheckoutError(customerName, customerEmail, cartSize);
    assert e == None || e == Some(NameRequired) || e == Some(EmailRequired) || e == Some(EmailInvalid) || e == Some(CartEmpty);
    assert NameRequired != SubmitFailed && EmailRequired != SubmitFailed;
    assert EmailInvalid != SubmitFailed && CartEmpty != SubmitFailed && "" != SubmitFailed;
  }

  /** The form's state cells. */
  class CheckoutForm {
    var customerName: string
    var customerEmail: string
    var isSubmitting: bool
    var error: string

    constructor ()
      ensures customerName == "" && customerEmail == "" && !isSubmitting && error == ""
    {
      customerName := "";
      customerEmail := "";
      isSubmitting := false;
      error := "";
    }

    /** The name input's `onChange`. */
    method EditName(text: string)
      modifies this
      ensures customerName == text
      ensures customerEmail == old(customerEmail) && isSubmitting == old(isSubmitting) && error == old(error)
    {
      customerName := text;
    }

    /** The email input's `onChange`. */
    method EditEmail(text: string)
      modifies this
      ensures customerEmail == text
      ensures customerName == old(customerName) && isSubmitting == old(isSubmitting) && error == old(error)
    {
      customerEmail := text;
    }

    /** The synchronous head of `handleCheckout`: clear the error, then either
        stop with the message of the first failing check (`CheckoutError`) or
        mark the form as submitting. */
    method Validate(cartSize: nat) returns (proceed: bool)
      modifies this
      ensures proceed <==> CheckoutError(old(customerName), old(customerEmail), cartSize).None?
      ensures error == CheckoutError(old(customerName), old(customerEmail), cartSize).GetOr("")
      ensures isSubmitting == (proceed || old(isSubmitting))
      ensures customerName == old(customerName) && customerEmail == old(customerEmail)
    {
      error := "";
      var verdict := CheckoutError(customerName, customerEmail, cartSize);
      if verdict.Some? {
        error := verdict.value;
        return false;
      }
      isSubmitting := true;
      return true;
    }

    /** The tail of `handleCheckout` once `onCreateOrder` has settled: clear
        both fields when it returned, set the failure message when it threw,
        and in either case stop submitting. */
    method Settle(threw: bool)
      modifies this
      ensures !isSubmitting
      ensures !threw ==> customerName == "" && customerEmail == "" && error == old(error)
      ensures threw ==> customerName == old(customerName) && customerEmail == old(customerEmail) && error == SubmitFailed
    {
      if threw {
        error := SubmitFailed;
      } else {
        customerName := "";
        customerEmail := "";
      }
      isSubmitting := false;
    }
  }

  // -------------------------------------------------------- quantity controls

  /** The quantity the number input hands on: `parseInt(text) || 1`, so a
      non-number and 0 both become 1. */
  function InputQuantity(text: string): int {
    match ParseInt(text)
    case None => 1
    case Some(v) => if v == 0 then 1 else v
  }

  /** The number input passes a typed number through unless it is 0,
      turns 0 into 1, and passes a negative number through, which then
      removes the line. */
  lemma InputQuantityCases(n: nat, cart: seq<Line>, id: string)
    ensures InputQuantity(Decimal(n)) == (if n == 0 then 1 else n)
    ensures InputQuantity("-" + Decimal(n)) == (if n == 0 then 1 else -(n as int))
    ensures n > 0 ==> UpdateCartQuantity(cart, id, InputQuantity("-" + Decimal(n))) == RemoveFromCart(cart, id)
  {
    ParseIntDecimal(n);
  }

  /** Text with no digit, the empty text included, becomes 1. */
  lemma {:induction false} InputQuantityWithoutDigits(text: string)
    requires forall i :: 0 <= i < |text| ==> !IsDigit(text[i])
    ensures InputQuantity(text) == 1
  {
    ParseIntWithoutDigits(text);
  }

  lemma InputQuantityNonZero(text: string)
    ensures InputQuantity(text) != 0
  {
  }

  /** The '−' button on a line of quantity 1 removes the line; the '+'
      button on a line of non-negative quantity does exactly what adding the
      same product to the cart does. */
  lemma QuantityButtons(cart: seq<Line>, k: nat)
    requires DistinctIds(cart) && k < |cart|
    ensures cart[k].quantity == 1 ==>
              UpdateCartQuantity(cart, cart[k].id, cart[k].quantity - 1) == cart[..k] + cart[k + 1..]
    ensures cart[k].quantity >= 0 ==>
              UpdateCartQuantity(cart, cart[k].id, cart[k].quantity + 1) ==
              AddToCart(cart, Product(cart[k].id, cart[k].name, cart[k].price, cart[k].image))
  {
    RemoveAt(cart, k);
    var p := Product(cart[k].id, cart[k].name, cart[k].price, cart[k].image);
    assert HasId(cart, p.id);
    var up := UpdateCartQuantity(cart, cart[k].id, cart[k].quantity + 1);
    var add := AddToCart(cart, p);
    forall i | cart[k].quantity >= 0 && 0 <= i < |cart| ensures up[i] == add[i] {
      if i != k {
        assert cart[i].id != cart[k].id by {
          if i < k { assert cart[i].id != cart[k].id; } else { assert cart[k].id != cart[i].id; }
        }
      }
    }
  }
}
