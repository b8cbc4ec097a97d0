/** The name an attachment is saved under, before it is made unique in its directory. */
module FileNames {
  import opened Wrappers
  import opened Text

  /** C++ integer division: the quotient is truncated toward zero. */
  function TruncDiv(a: int, b: int): int
    requires b > 0
  {
    if a >= 0 then a / b else -((-a) / b)
  }

  /** The remainder left by `TruncDiv` has the sign of the dividend and is smaller than the divisor. */
  lemma TruncDivRemainder(a: int, b: int)
    requires b > 0
    ensures a >= 0 ==> 0 <= a - TruncDiv(a, b) * b < b
    ensures a < 0 ==> -b < a - TruncDiv(a, b) * b <= 0
  {
    if a < 0 {
      assert -a == b * ((-a) / b) + (-a) % b;
    }
  }

  /**
    The timestamp of an attachment in milliseconds: `date_received` when the
    backup is full and the column is set, otherwise the attachment id.
  */
  function Datum(attachmentId: int, fullBackup: bool, dateReceived: Option<int>): int
  {
    if fullBackup && dateReceived.Some? then dateReceived.value else attachmentId
  }

  lemma DatumChoice(attachmentId: int, fullBackup: bool, dateReceived: Option<int>)
    ensures fullBackup && dateReceived.Some? ==> Datum(attachmentId, fullBackup, dateReceived) == dateReceived.value
    ensures !fullBackup || dateReceived.None? ==> Datum(attachmentId, fullBackup, dateReceived) == attachmentId
  {
  }

  /** The date string: `format` (local time, "signal-%Y-%m-%d-%H%M%S") of the datum's whole seconds. */
  function DateString(format: int -> string, datum: int): string
  {
    format(TruncDiv(datum, 1000))
  }

  const FallbackExtension: string := "attach"

  /** The extension the mimetype table gave, or "attach" when it gave none. */
  function Extension(found: string): (ext: string)
    ensures ext != ""
    ensures found != "" ==> ext == found
    ensures found == "" ==> ext == FallbackExtension
  {
    if found == "" then FallbackExtension else found
  }

  /** "_<order>" for a non-zero display order, nothing for order zero. */
  function OrderSuffix(order: int): string
  {
    if order != 0 then "_" + IntToString(order) else ""
  }

  function SynthesizedName(dateString: string, order: int, found: string): string
  {
    dateString + OrderSuffix(order) + "." + Extension(found)
  }

  /**
    The stored file name after sanitizing, when there is one and it is not
    empty; otherwise the synthesized name.
  */
  function FileName(stored: Option<string>, sanitize: string -> string, dateString: string, order: int, found: string): string
  {
    var sanitized := if stored.Some? then sanitize(stored.value) else "";
    if sanitized != "" then sanitized else SynthesizedName(dateString, order, found)
  }

  /** A stored name that survives sanitizing is used unchanged. */
  lemma StoredNameUsed(stored: Option<string>, sanitize: string -> string, dateString: string, order: int, found: string)
    requires stored.Some? && sanitize(stored.value) != ""
    ensures FileName(stored, sanitize, dateString, order, found) == sanitize(stored.value)
  {
  }

  /**
    Without a usable stored name (none, or one that sanitizes to nothing such
    as a reserved device name), the name is the date string, the order suffix
    and ".<extension>", the extension being "attach" when the table has none.
  */
  lemma SynthesizedWithoutStoredName(stored: Option<string>, sanitize: string -> string, dateString: string, order: int, found: string)
    requires stored.None? || sanitize(stored.value) == ""
    ensures var name := FileName(stored, sanitize, dateString, order, found);
      var ext := if found == "" then FallbackExtension else found;
      name == dateString + OrderSuffix(order) + "." + ext &&
      name[..|dateString|] == dateString &&
      name[|name| - |ext| - 1..] == "." + ext
  {
    var name := FileName(stored, sanitize, dateString, order, found);
    var ext := Extension(found);
    Associative(dateString, OrderSuffix(order), "." + ext);
    Associative(dateString + OrderSuffix(order), ".", ext);
    assert name == dateString + (OrderSuffix(order) + "." + ext);
  }

  /**
    Attachments sharing a date string and an extension but differing in
    display order get different names.
  */
  lemma DistinctOrdersDistinctNames(dateString: string, order1: int, order2: int, found: string)
    requires order1 != order2
    ensures SynthesizedName(dateString, order1, found) != SynthesizedName(dateString, order2, found)
  {
    var tail := "." + Extension(found);
    var s1, s2 := OrderSuffix(order1), OrderSuffix(order2);
    var n1, n2 := SynthesizedName(dateString, order1, found), SynthesizedName(dateString, order2, found);
    Associative(dateString, s1, tail);
    Associative(dateString, s2, tail);
    if n1 == n2 {
      assert |s1| == |s2|;
      assert s1 == n1[|dateString|..|dateString| + |s1|];
      assert s2 == n2[|dateString|..|dateString| + |s2|];
      if order1 != 0 && order2 != 0 {
        assert IntToString(order1) == s1[1..];
        assert IntToString(order2) == s2[1..];
        IntToStringInjective(order1, order2);
      }
    }
  }
}
