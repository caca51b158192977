/**
 * The hand-written parts of the fraud prevention v2 payment models: the `dict()`
 * overrides that mask sensitive card and account fields, and the pattern and
 * length constraints of a few string fields, as pydantic (version 1) checks them.
 */
module FraudModel {
  import opened Wrappers
  import opened Text
  import opened PyDict

  /** A value of the dictionary pydantic's `dict()` produces. */
  datatype Json = JStr(s: string) | JInt(i: int) | JBool(b: bool) | JNull
                | JObject(fields: seq<(string, Json)>) | JArray(items: seq<Json>)

  const OMITTED_VALUE := "<-- omitted -->"

  const CREDIT_CARD_OMITTED: seq<string> := ["card_number", "card_cvv_response", "card_avs_response"]
  const GIFT_CARD_OMITTED: seq<string> := ["pin"]
  const DIRECT_DEBIT_OMITTED: seq<string> := ["account_number"]

  /** `[(attribute, "<-- omitted -->") for attribute in omitted_fields]` */
  function OmittedPairs(fields: seq<string>): (r: Dict<string, Json>)
    ensures Keys(r) == fields
    ensures forall k :: k in fields ==> Get(r, k) == Some(JStr(OMITTED_VALUE))
  {
    if fields == [] then []
    else
      var rest := OmittedPairs(fields[1..]);
      KeysCons((fields[0], JStr(OMITTED_VALUE)), rest);
      [(fields[0], JStr(OMITTED_VALUE))] + rest
  }

  predicate Distinct(fields: seq<string>) {
    forall i, j :: 0 <= i < j < |fields| ==> fields[i] != fields[j]
  }

  /** The overridden `dict()`: the parent's dictionary, then `update` with the masked fields. */
  function MaskedDict(parent: Dict<string, Json>, fields: seq<string>): Dict<string, Json>
  {
    Update(parent, OmittedPairs(fields))
  }

  /**
   * Each masked field reads as the mask, present even when the parent left it out;
   * every other key reads as in the parent's dictionary; the parent's keys keep
   * their places and no other key appears.
   */
  lemma MaskedDictIs(parent: Dict<string, Json>, fields: seq<string>, k: string)
    requires Distinct(fields)
    ensures var r := MaskedDict(parent, fields);
      && Get(r, k) == (if k in fields then Some(JStr(OMITTED_VALUE)) else Get(parent, k))
      && (k in Keys(r) <==> k in Keys(parent) || k in fields)
      && |r| >= |parent| && Keys(r)[..|parent|] == Keys(parent)
  {
    var e := OmittedPairs(fields);
    assert KeysDistinct(e) by {
      forall i, j | 0 <= i < j < |e| ensures e[i].0 != e[j].0 {
        assert e[i].0 == Keys(e)[i] && e[j].0 == Keys(e)[j];
      }
    }
    UpdateGet(parent, e, k);
    UpdateKeys(parent, e, k);
    UpdateKeepsPositions(parent, e);
  }

  /** The `i`-th masked field reads as the mask. */
  lemma MaskedField(parent: Dict<string, Json>, fields: seq<string>, i: nat)
    requires Distinct(fields) && i < |fields|
    ensures Get(MaskedDict(parent, fields), fields[i]) == Some(JStr(OMITTED_VALUE))
  {
    MaskedDictIs(parent, fields, fields[i]);
  }

  /** `CreditCard.dict`: the card number and the CVV and AVS responses are masked, the rest is the parent's. */
  lemma CreditCardMasked(parent: Dict<string, Json>, k: string)
    ensures Get(MaskedDict(parent, CREDIT_CARD_OMITTED), "card_number") == Some(JStr(OMITTED_VALUE))
    ensures Get(MaskedDict(parent, CREDIT_CARD_OMITTED), "card_cvv_response") == Some(JStr(OMITTED_VALUE))
    ensures Get(MaskedDict(parent, CREDIT_CARD_OMITTED), "card_avs_response") == Some(JStr(OMITTED_VALUE))
    ensures k !in CREDIT_CARD_OMITTED ==> Get(MaskedDict(parent, CREDIT_CARD_OMITTED), k) == Get(parent, k)
  {
    assert Distinct(CREDIT_CARD_OMITTED);
    MaskedField(parent, CREDIT_CARD_OMITTED, 0);
    MaskedField(parent, CREDIT_CARD_OMITTED, 1);
    MaskedField(parent, CREDIT_CARD_OMITTED, 2);
    MaskedDictIs(parent, CREDIT_CARD_OMITTED, k);
  }

  /** `GiftCard.dict` masks the PIN and `DirectDebit.dict` the account number; the rest is the parent's. */
  lemma GiftCardAndDirectDebitMasked(parent: Dict<string, Json>, k: string)
    ensures Get(MaskedDict(parent, GIFT_CARD_OMITTED), "pin") == Some(JStr(OMITTED_VALUE))
    ensures k != "pin" ==> Get(MaskedDict(parent, GIFT_CARD_OMITTED), k) == Get(parent, k)
    ensures Get(MaskedDict(parent, DIRECT_DEBIT_OMITTED), "account_number") == Some(JStr(OMITTED_VALUE))
    ensures k != "account_number" ==> Get(MaskedDict(parent, DIRECT_DEBIT_OMITTED), k) == Get(parent, k)
  {
    MaskedDictIs(parent, GIFT_CARD_OMITTED, "pin");
    MaskedDictIs(parent, GIFT_CARD_OMITTED, k);
    MaskedDictIs(parent, DIRECT_DEBIT_OMITTED, "account_number");
    MaskedDictIs(parent, DIRECT_DEBIT_OMITTED, k);
  }

  /* --------------------------------------------------------------- constraints */

  /** The text is `lo` to `hi` characters of the class. */
  predicate ClassRun(s: string, k: CharClass, lo: nat, hi: nat) {
    lo <= |s| <= hi && forall i :: 0 <= i < |s| ==> InClass(s[i], k)
  }

  /**
   * `re.match("^[...]{lo,hi}$", s)`, the check pydantic version 1 makes: Python's `$`
   * matches at the end of the text and also just before a newline that ends it.
   */
  predicate RegexMatches(s: string, k: CharClass, lo: nat, hi: nat) {
    ClassRun(s, k, lo, hi) || (|s| > 0 && s[|s| - 1] == '\n' && ClassRun(s[..|s| - 1], k, lo, hi))
  }

  /** A `constr(regex=..., max_length=...)` field accepts the text. */
  predicate Accepted(s: string, k: CharClass, lo: nat, hi: nat, maxLength: Option<nat>) {
    RegexMatches(s, k, lo, hi) && (maxLength.Some? ==> |s| <= maxLength.value)
  }

  /** `SiteInfo.country_code`: `^[A-Z]{3}$`. */
  predicate CountryCodeAccepted(s: string) { Accepted(s, UpperClass, 3, 3, None) }
  /** `Telephone.country_access_code`: `^[0-9]{1,3}$`, at most 3 characters. */
  predicate CountryAccessCodeAccepted(s: string) { Accepted(s, DigitClass, 1, 3, Some(3)) }
  /** `GiftCard.card_number`: `^[0-9A-Za-z]{4,16}$`, at most 16 characters. */
  predicate GiftCardNumberAccepted(s: string) { Accepted(s, AlnumClass, 4, 16, Some(16)) }
  /** `GiftCard.pin`: `^[0-9]{4,8}$`, at most 8 characters. */
  predicate GiftCardPinAccepted(s: string) { Accepted(s, DigitClass, 4, 8, Some(8)) }

  /**
   * As written, each constraint also lets through a value with one trailing newline,
   * which the field descriptions rule out ("does not include symbols, spaces").
   */
  lemma TrailingNewlineAccepted()
    ensures CountryCodeAccepted("USA\n")
    ensures CountryAccessCodeAccepted("12\n")
    ensures GiftCardNumberAccepted("ABCD\n")
    ensures GiftCardPinAccepted("1234\n")
  {
    assert "USA\n"[..3] == "USA";
    assert "12\n"[..2] == "12";
    assert "ABCD\n"[..4] == "ABCD";
    assert "1234\n"[..4] == "1234";
  }

  /** With the whole text matched (`re.fullmatch`, or `\Z` for `$`), a constraint accepts exactly its runs. */
  predicate FullyAccepted(s: string, k: CharClass, lo: nat, hi: nat, maxLength: Option<nat>) {
    ClassRun(s, k, lo, hi) && (maxLength.Some? ==> |s| <= maxLength.value)
  }

  /** The four constraints matched on the whole text accept exactly what their descriptions say. */
  lemma FullMatchExactly(s: string)
    ensures FullyAccepted(s, UpperClass, 3, 3, None) <==> |s| == 3 && forall i :: 0 <= i < |s| ==> IsUpper(s[i])
    ensures FullyAccepted(s, DigitClass, 1, 3, Some(3)) <==> 1 <= |s| <= 3 && AllDigits(s)
    ensures FullyAccepted(s, AlnumClass, 4, 16, Some(16)) <==> 4 <= |s| <= 16 && forall i :: 0 <= i < |s| ==> IsAlnum(s[i])
    ensures FullyAccepted(s, DigitClass, 4, 8, Some(8)) <==> 4 <= |s| <= 8 && AllDigits(s)
  {
  }

  /** As written, a value is accepted exactly when it, or it without one final newline, is a run of the class. */
  lemma AcceptedAsWritten(s: string)
    ensures GiftCardPinAccepted(s) <==>
              (4 <= |s| <= 8 && AllDigits(s)) || (5 <= |s| <= 8 && s[|s| - 1] == '\n' && AllDigits(s[..|s| - 1]))
    ensures CountryCodeAccepted(s) <==>
              FullyAccepted(s, UpperClass, 3, 3, None)
              || (|s| == 4 && s[3] == '\n' && FullyAccepted(s[..3], UpperClass, 3, 3, None))
  {
  }
}
