/** Identifiers: text of a fixed shape, parsed strictly, compared as text. */
module Ids {
  import opened Wrappers

  newtype byte = x: int | 0 <= x < 256

  datatype ItemId = ItemId(text: string) {
    /** What follows the eight digits of time and the dash. */
    function ContentKey(): string {
      if |text| < 9 then "" else text[9..]
    }
  }

  datatype KeyId = KeyId(text: string)
  datatype UploadId = UploadId(text: string)
  datatype ApiKeyId = ApiKeyId(text: string)
  datatype WorkspaceId = WorkspaceId(text: string)

  predicate IsLowerHex(text: string) {
    text != "" && forall c <- text :: '0' <= c <= '9' || 'a' <= c <= 'f'
  }

  function ParseItemId(text: string): Option<ItemId> {
    if |text| == 21 && text[8] == '-' && IsLowerHex(text[..8]) && IsLowerHex(text[9..])
    then Some(ItemId(text)) else None
  }

  /** Eight digits of time, a dash, and twelve of content. */
  predicate IsItemId(text: string, time: string, key: string) {
    && text == time + "-" + key && |time| == 8 && |key| == 12
    && forall c <- time + key :: '0' <= c <= '9' || 'a' <= c <= 'f'
  }

  lemma ItemIdsExactly(text: string)
    ensures ParseItemId(text).Some? <==> exists time, key :: IsItemId(text, time, key)
    ensures forall time, key :: IsItemId(text, time, key) ==> ItemId(text).ContentKey() == key
  {
    if ParseItemId(text).Some? {
      assert text == text[..8] + "-" + text[9..];
      assert IsItemId(text, text[..8], text[9..]);
    }
    if time, key :| IsItemId(text, time, key) {
      assert text[..8] == time && text[9..] == key;
      assert forall c <- time :: c in time + key;
      assert forall c <- key :: c in time + key;
    }
    forall time, key | IsItemId(text, time, key) ensures ItemId(text).ContentKey() == key {
      assert text[9..] == key;
    }
  }

  function ParseKeyId(text: string): Option<KeyId> {
    if |text| <= 64 && IsLowerHex(text) then Some(KeyId(text)) else None
  }

  function ParseUploadId(text: string): Option<UploadId> {
    if |text| == 32 && IsLowerHex(text) then Some(UploadId(text)) else None
  }

  function HexDigit(n: int): char
    requires 0 <= n < 16
  {
    "0123456789abcdef"[n]
  }

  /** Two lower-case digits a byte, as `{b:02x}` writes it. */
  function Hex(bytes: seq<byte>): (text: string)
    ensures |text| == 2 * |bytes|
  {
    if bytes == [] then ""
    else [HexDigit(bytes[0] as int / 16), HexDigit(bytes[0] as int % 16)] + Hex(bytes[1..])
  }

  function DigitValue(digit: char): nat {
    if '0' <= digit <= '9' then (digit - '0') as nat else if 'a' <= digit <= 'f' then (digit - 'a') as nat + 10 else 16
  }

  /** The text has lower-case digits only, and each byte can be read off its two. */
  lemma {:induction false} HexReadsBack(bytes: seq<byte>, i: nat)
    requires i < |bytes|
    ensures var text := Hex(bytes);
      && IsLowerHex(text) && DigitValue(text[2 * i]) * 16 + DigitValue(text[2 * i + 1]) == bytes[i] as int
    decreases |bytes|
  {
    DigitReadsBack(bytes[0] as int / 16);
    DigitReadsBack(bytes[0] as int % 16);
    if |bytes| > 1 {
      HexReadsBack(bytes[1..], if i == 0 then 0 else i - 1);
    }
    assert Hex(bytes)[2..] == Hex(bytes[1..]);
  }

  lemma DigitReadsBack(n: int)
    requires 0 <= n < 16
    ensures DigitValue(HexDigit(n)) == n && IsLowerHex([HexDigit(n)])
  {
    assert HexDigit(n) in "0123456789abcdef";
    assert forall k :: 0 <= k < 16 ==> DigitValue("0123456789abcdef"[k]) == k;
  }

  /** The order of texts, which is the order of ids. */
  predicate Below(a: string, b: string)
  {
    b != "" && (a == "" || a[0] < b[0] || (a[0] == b[0] && Below(a[1..], b[1..])))
  }

  lemma {:induction false} BelowTotal(a: string, b: string)
    ensures Below(a, b) || Below(b, a) || a == b
    ensures !(Below(a, b) && Below(b, a))
    ensures !Below(a, a)
  {
    if a != "" && b != "" {
      BelowTotal(a[1..], b[1..]);
      assert a == [a[0]] + a[1..] && b == [b[0]] + b[1..];
    }
    if a != "" {
      BelowTotal(a[1..], a[1..]);
    }
  }

  lemma {:induction false} BelowTransitive(a: string, b: string, c: string)
    requires Below(a, b) && Below(b, c)
    ensures Below(a, c)
  {
    if a != "" && a[0] == b[0] == c[0] {
      BelowTransitive(a[1..], b[1..], c[1..]);
    }
  }

  predicate Older(a: ItemId, b: ItemId) { Below(a.text, b.text) }

  ghost predicate IsOldest(id: ItemId, ids: set<ItemId>) {
    id in ids && forall other <- ids :: other == id || Older(id, other)
  }

  /** Every finite nonempty set of ids has an oldest one. */
  lemma {:induction false} HasOldest(ids: set<ItemId>) returns (oldest: ItemId)
    requires ids != {}
    ensures IsOldest(oldest, ids)
    decreases ids
  {
    var first :| first in ids;
    var rest := ids - {first};
    oldest := first;
    assert forall id <- ids :: id == first || id in rest;
    if rest != {} {
      var best := HasOldest(rest);
      BelowTotal(first.text, best.text);
      assert first != best && first.text != best.text;
      if Older(best, first) {
        oldest := best;
      } else {
        forall id <- rest ensures Older(first, id) {
          if id != best {
            BelowTransitive(first.text, best.text, id.text);
          }
        }
      }
    }
  }

  lemma OldestUnique(ids: set<ItemId>, a: ItemId, b: ItemId)
    requires IsOldest(a, ids) && IsOldest(b, ids)
    ensures a == b
  {
    BelowTotal(a.text, b.text);
  }

  /** The oldest of some ids. */
  function Oldest(ids: set<ItemId>): (oldest: ItemId)
    requires ids != {}
    ensures IsOldest(oldest, ids)
  {
    assert exists a :: IsOldest(a, ids) by { var a := HasOldest(ids); }
    assert forall a, b {:trigger IsOldest(a, ids), IsOldest(b, ids)} ::
      IsOldest(a, ids) && IsOldest(b, ids) ==> a == b by {
      forall a, b | IsOldest(a, ids) && IsOldest(b, ids) ensures a == b {
        OldestUnique(ids, a, b);
      }
    }
    assert forall a :: a in ids && (forall other <- ids :: other == a || Older(a, other)) ==> IsOldest(a, ids);
    var oldest :| oldest in ids && forall other <- ids :: other == oldest || Older(oldest, other);
    oldest
  }

  /** Ids, newest first. */
  function NewestFirst(ids: set<ItemId>): (list: seq<ItemId>)
    ensures |list| == |ids|
    ensures forall id :: id in list <==> id in ids
    decreases ids
  {
    if ids == {} then []
    else
      var oldest := Oldest(ids);
      NewestFirst(ids - {oldest}) + [oldest]
  }

  lemma {:induction false} NewestFirstSorted(ids: set<ItemId>)
    ensures forall i, j :: 0 <= i < j < |NewestFirst(ids)| ==> Older(NewestFirst(ids)[j], NewestFirst(ids)[i])
    decreases ids
  {
    if ids != {} {
      NewestFirstSorted(ids - {Oldest(ids)});
    }
  }

  /** An item id that parses begins with its time, so older means earlier;
      and its content key is what the digits of a hash can equal. */
  lemma {:induction false} OlderByTime(a: string, b: string, n: nat)
    requires n <= |a| && n <= |b| && Below(a[..n], b[..n])
    ensures Below(a, b)
  {
    if n > 0 && a[0] == b[0] {
      assert a[..n][1..] == a[1..][..n-1] && b[..n][1..] == b[1..][..n-1];
      OlderByTime(a[1..], b[1..], n - 1);
    }
  }

  lemma ParsedItemIdsSortByTime(s: string, t: string)
    requires ParseItemId(s).Some? && ParseItemId(t).Some?
    ensures Below(s[..8], t[..8]) ==> Older(ParseItemId(s).value, ParseItemId(t).value)
    ensures |ParseItemId(s).value.ContentKey()| == 12 && IsLowerHex(ParseItemId(s).value.ContentKey())
  {
    if Below(s[..8], t[..8]) {
      OlderByTime(s, t, 8);
    }
  }
}
