/** Settle keys: the watch id in decimal, a newline, and the absolute path. */
module SettleKeys {
  import opened Text

  /** std::to_string. */
  function Decimal(n: nat): string {
    var last := [('0' as int + n % 10) as char];
    if n < 10 then last else Decimal(n / 10) + last
  }

  function Prefix(id: nat): string {
    Decimal(id) + "\n"
  }

  function SettleKey(source: nat, path: string): string {
    Prefix(source) + path
  }

  function DecimalValue(s: string): int {
    if s == "" then 0 else 10 * DecimalValue(s[..|s| - 1]) + s[|s| - 1] as int - '0' as int
  }

  lemma {:induction false} ValueOfDecimal(n: nat)
    ensures DecimalValue(Decimal(n)) == n && '\n' !in Decimal(n)
  {
    var s := Decimal(n);
    if n < 10 {
      assert s[..0] == "";
    } else {
      ValueOfDecimal(n / 10);
      assert s[..|s| - 1] == Decimal(n / 10);
    }
  }

  lemma NewlineOfKey(source: nat, path: string)
    ensures IndexOf(SettleKey(source, path), '\n') == |Decimal(source)|
    ensures SettleKey(source, path)[..|Decimal(source)|] == Decimal(source)
    ensures SettleKey(source, path)[|Decimal(source)| + 1..] == path
  {
    hide Decimal;
    ValueOfDecimal(source);
    var key, d := SettleKey(source, path), Decimal(source);
    assert forall k | 0 <= k < |d| :: key[k] == d[k] && d[k] in d;
    IndexOfIs(key, '\n', |d|);
  }

  /** Distinct watches and paths have distinct keys. */
  lemma KeyIsInjective(source: nat, path: string, source': nat, path': string)
    requires SettleKey(source, path) == SettleKey(source', path')
    ensures source == source' && path == path'
  {
    hide Decimal, IndexOf, SettleKey;
    NewlineOfKey(source, path);
    NewlineOfKey(source', path');
    ValueOfDecimal(source);
    ValueOfDecimal(source');
  }

  /** The prefix of a watch selects exactly the keys of that watch. */
  lemma PrefixSelects(id: nat, source: nat, path: string)
    ensures StartsWith(SettleKey(source, path), Prefix(id)) <==> id == source
  {
    hide Decimal, IndexOf;
    var key := SettleKey(source, path);
    if id == source {
      assert key[..|Prefix(id)|] == Prefix(id);
    } else if StartsWith(key, Prefix(id)) {
      var rest := key[|Prefix(id)|..];
      assert key == SettleKey(id, rest);
      KeyIsInjective(id, rest, source, path);
    }
  }
}
