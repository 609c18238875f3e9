/** `format_delivery`: the delivery text shown under a product, cut to at most
    thirty characters, or "Standard" when the response gave none. */
module Delivery {
  import opened Values

  const MaxDeliveryLength: nat := 30
  const DefaultDelivery: string := "Standard"

  /** The longest prefix of `s` of at most `n` characters (Python's `s[:n]`). */
  function Prefix(s: string, n: nat): (r: string)
    ensures |r| <= n && |r| <= |s| && r == s[..|r|]
    ensures |r| == n || r == s
  {
    if |s| <= n then s else s[..n]
  }

  /** `format_delivery(delivery_info)` of lines 86-93. */
  function FormatDelivery(info: Field): (r: string)
    ensures !Truthy(info) ==> r == DefaultDelivery
    ensures Truthy(info) ==> |r| <= MaxDeliveryLength && |r| <= |Head(info)| && r == Head(info)[..|r|]
    ensures Truthy(info) ==> |r| == MaxDeliveryLength || r == Head(info)
  {
    if !Truthy(info) then DefaultDelivery
    else Prefix(Head(info), MaxDeliveryLength)
  }

  /** Formatting a text that is already short and non-empty gives it back, so
      formatting twice is formatting once except for the empty first element
      of a list, which comes back as "" and then as "Standard". */
  lemma FormatDeliveryIdempotent(info: Field)
    requires FormatDelivery(info) != []
    ensures FormatDelivery(Str(FormatDelivery(info))) == FormatDelivery(info)
  {
  }

  /** A list whose first element is empty formats as the empty string, not as
      "Standard": only a missing value, "" or [] fall back to the default. */
  lemma EmptyFirstDelivery(items: seq<string>)
    requires items != [] && items[0] == []
    ensures FormatDelivery(List(items)) == []
  {
  }
}
