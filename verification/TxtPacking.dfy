/** `fit_txt_values`: as many whole values as one DNS-SD TXT entry can hold (the
    length octet of section 6.1 of RFC 6763 limits `key=value` to 255 bytes).  */
module TxtPacking {
  import opened Common
  import opened Text

  const DNS_SD_TXT_ENTRY_MAX_BYTES: nat := 255

  /** Bytes of the joined text after appending `value` to text of `used` bytes. */
  function Extended(used: nat, value: string): nat {
    used + (if used == 0 then 0 else 1) + |value|
  }

  predicate Fits(used: nat, value: string, budget: nat) {
    value != [] && Extended(used, value) <= budget
  }

  /** Which values are taken, when `used` bytes are already there. */
  function Selected(values: seq<string>, used: nat, budget: nat): (flags: seq<bool>)
    ensures |flags| == |values|
  {
    if values == [] then []
    else if Fits(used, values[0], budget) then [true] + Selected(values[1..], Extended(used, values[0]), budget)
    else [false] + Selected(values[1..], used, budget)
  }

  /** The flagged values, in order. */
  function Pick(values: seq<string>, flags: seq<bool>): (picked: seq<string>)
    requires |flags| == |values|
    ensures forall v | v in picked :: v in values
  {
    if values == [] then []
    else (if flags[0] then [values[0]] else []) + Pick(values[1..], flags[1..])
  }

  function Budget(key: string): Option<nat> {
    if |key| + 1 > DNS_SD_TXT_ENTRY_MAX_BYTES then None else Some(DNS_SD_TXT_ENTRY_MAX_BYTES - (|key| + 1))
  }

  /** The values one entry carries: none when the key alone is too long. */
  function Packed(key: string, values: seq<string>): seq<string> {
    match Budget(key)
    case None => []
    case Some(budget) => Pick(values, Selected(values, 0, budget))
  }

  method FitTxtValues(key: string, values: seq<string>) returns (entry: Option<string>)
    ensures entry == if Packed(key, values) == [] then None else Some(Join(Packed(key, values), ','))
  {
    var budget := Budget(key);
    if budget.None? {
      return None;
    }
    var joined := [];
    ghost var taken: seq<string> := [];
    assert values[0..] == values;
    for i := 0 to |values|
      invariant joined == Join(taken, ',')
      invariant forall v | v in taken :: v != []
      invariant taken + Pick(values[i..], Selected(values[i..], |joined|, budget.value)) == Packed(key, values)
    {
      assert values[i..][0] == values[i] && values[i..][1..] == values[i + 1..];
      if values[i] != [] {
        var separatorLen := if joined != [] then 1 else 0;
        var candidateLen := |joined| + separatorLen + |values[i]|;
        if candidateLen <= budget.value {
          JoinSnoc(taken, values[i], ',');
          JoinNonEmpty(taken, ',');
          if separatorLen != 0 {
            joined := joined + [','];
          }
          joined := joined + values[i];
          taken := taken + [values[i]];
        }
      }
    }
    JoinNonEmpty(taken, ',');
    assert taken == Packed(key, values);
    entry := if joined != [] then Some(joined) else None;
  }

  /** The joined length, counted the way the loop counts it. */
  lemma {:induction false} SelectedStaysWithin(values: seq<string>, prefix: seq<string>, budget: nat)
    requires (forall v | v in prefix :: v != []) && |Join(prefix, ',')| <= budget
    ensures var used := |Join(prefix, ',')|;
            var all := prefix + Pick(values, Selected(values, used, budget));
            && |Join(all, ',')| <= budget && used <= |Join(all, ',')|
            && (forall v | v in all :: v != [])
            && (forall i | 0 <= i < |values| :: !Selected(values, used, budget)[i] && values[i] != [] ==>
                  Extended(|Join(all, ',')|, values[i]) > budget)
    decreases |values|
  {
    var used := |Join(prefix, ',')|;
    var flags := Selected(values, used, budget);
    if values == [] {
      assert prefix + [] == prefix;
    } else {
      JoinNonEmpty(prefix, ',');
      JoinSnoc(prefix, values[0], ',');
      var next := if flags[0] then prefix + [values[0]] else prefix;
      SelectedStaysWithin(values[1..], next, budget);
      assert prefix + Pick(values, flags) == next + Pick(values[1..], flags[1..]);
    }
  }

  /** The packing promise: the entry stays within the limit, every taken value is a whole
      non-empty input value in input order, and no omitted non-empty value would still
      fit the final entry.  */
  lemma PackedIsMaximal(key: string, values: seq<string>)
    requires |key| + 1 <= DNS_SD_TXT_ENTRY_MAX_BYTES
    ensures var joined := Join(Packed(key, values), ',');
            var flags := Selected(values, 0, Budget(key).value);
            && Packed(key, values) == Pick(values, flags)
            && |key| + 1 + |joined| <= DNS_SD_TXT_ENTRY_MAX_BYTES
            && (forall v | v in Packed(key, values) :: v != [])
            && (forall i | 0 <= i < |values| && !flags[i] && values[i] != [] ::
                  |key| + 1 + Extended(|joined|, values[i]) > DNS_SD_TXT_ENTRY_MAX_BYTES)
  {
    SelectedStaysWithin(values, [], Budget(key).value);
    assert [] + Packed(key, values) == Packed(key, values);
  }

  /** A browser that splits the entry on commas gets back exactly the packed values. */
  lemma PackedSplitsBack(key: string, values: seq<string>)
    requires forall v | v in values :: ',' !in v
    requires Packed(key, values) != []
    ensures Split(Join(Packed(key, values), ','), ',') == Packed(key, values)
  {
    SplitJoin(Packed(key, values), ',');
  }
}
