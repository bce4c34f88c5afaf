/**
 * Unarmouring of an AIS payload (`sixbit_to_binary`): each payload character
 * is looked up in a 64-symbol alphabet and contributes its index as six
 * binary digits, most significant first.
 */
module SixBit {
  import opened Results
  import opened PyStr
  import opened Bits

  /** The armour alphabet in value order, written as its two bands: '0'..'W' then '`'..'w'. */
  const SixbitMap: string := LowBand + HighBand

  const LowBand: string := "0123456789:;<=>?@ABCDEFGHIJKLMNOPQRSTUVW"
  const HighBand: string := "`abcdefghijklmnopqrstuvw"

  /** The value an armour character carries: c-48 in the band '0'..'W', c-56 in the band '`'..'w'. */
  function ArmourValue(c: char): Option<nat>
  {
    if '0' <= c <= 'W' then Some(c as nat - 48)
    else if '`' <= c <= 'w' then Some(c as nat - 56)
    else None
  }

  lemma LowBandCodes(i: nat)
    requires i < |LowBand|
    ensures |LowBand| == 40 && LowBand[i] as int == i + 48
  {
  }

  lemma HighBandCodes(i: nat)
    requires i < |HighBand|
    ensures |HighBand| == 24 && HighBand[i] as int == i + 32 + 64
  {
  }

  /** The alphabet string lists the two bands in order. */
  lemma AlphabetBands(i: nat)
    requires i < |SixbitMap|
    ensures |SixbitMap| == 64
    ensures SixbitMap[i] as int == if i < 40 then i + 48 else i + 56
  {
    if i < |LowBand| {
      LowBandCodes(i);
    } else {
      HighBandCodes(i - |LowBand|);
    }
  }

  /** The value of an armour character, or the ValueError raised for a character outside the alphabet. */
  function ArmourIndex(c: char): Result<nat, PyError>
  {
    match ArmourValue(c)
    case Some(v) => Ok(v)
    case None => Err(ValueError)
  }

  /** `sixbit_map.index(c)`: the position of `c` in the alphabet string is its band value. */
  function SixbitIndex(c: char): (r: Result<nat, PyError>)
    ensures r == ArmourIndex(c)
    ensures r.Ok? ==> r.value < 64
  {
    match Find(SixbitMap, c)
    case None =>
      ArmourCharacterListed(c);
      Err(ValueError)
    case Some(i) =>
      ListedCharacterValue(i);
      Ok(i)
  }

  /** Every character that carries a value stands at that position of the alphabet. */
  lemma ArmourCharacterListed(c: char)
    ensures ArmourValue(c).Some? ==> ArmourValue(c).value < |SixbitMap| && SixbitMap[ArmourValue(c).value] == c
  {
    if ArmourValue(c).Some? {
      AlphabetBands(ArmourValue(c).value);
    }
  }

  /** The character at position `i` of the alphabet carries the value `i`. */
  lemma ListedCharacterValue(i: nat)
    requires i < |SixbitMap|
    ensures i < 64 && ArmourValue(SixbitMap[i]) == Some(i)
  {
    AlphabetBands(i);
  }

  /** The bitstream `sixbit_to_binary` returns, or the error it raises. */
  function Unarmour(payload: string): (r: Result<string, PyError>)
    ensures r.Ok? <==> forall i :: 0 <= i < |payload| ==> ArmourValue(payload[i]).Some?
    ensures r.Ok? ==> |r.value| == 6 * |payload| && IsBits(r.value)
    ensures r.Err? ==> r.error == ValueError
  {
    if payload == [] then Ok("")
    else
      var init := payload[..|payload| - 1];
      assert forall i :: 0 <= i < |init| ==> init[i] == payload[i];
      match Unarmour(init)
      case Err(e) =>
        assert exists i :: 0 <= i < |init| && ArmourValue(payload[i]).None?;
        Err(e)
      case Ok(prefix) =>
        match ArmourIndex(payload[|payload| - 1])
        case Err(e) => Err(e)
        case Ok(v) =>
          var group := NatToBin(v, 6);
          assert forall i :: 0 <= i < |prefix + group| ==> (prefix + group)[i] == if i < |prefix| then prefix[i] else group[i - |prefix|];
          Ok(prefix + group)
  }

  /** Group `i` of the bitstream is the six-digit binary form of the value of character `i`. */
  lemma {:induction false} UnarmourGroup(payload: string, i: nat)
    requires Unarmour(payload).Ok? && i < |payload|
    ensures Unarmour(payload).value[6 * i..6 * i + 6] == NatToBin(ArmourValue(payload[i]).value, 6)
  {
    var init := payload[..|payload| - 1];
    var bits := Unarmour(payload).value;
    var prefix := Unarmour(init).value;
    assert bits == prefix + NatToBin(ArmourValue(payload[|payload| - 1]).value, 6);
    if i < |payload| - 1 {
      UnarmourGroup(init, i);
      assert bits[6 * i..6 * i + 6] == prefix[6 * i..6 * i + 6];
    } else {
      assert bits[6 * i..6 * i + 6] == bits[|prefix|..];
    }
  }

  /** Round trip: reading group `i` of the bitstream gives back the alphabet index of character `i`. */
  lemma GroupValue(payload: string, i: nat)
    requires Unarmour(payload).Ok? && i < |payload|
    ensures BinToNat(Unarmour(payload).value[6 * i..6 * i + 6]) == ArmourValue(payload[i]).value
    ensures Field(Unarmour(payload).value, 6 * i, 6 * i + 6) == Ok(ArmourValue(payload[i]).value)
  {
    UnarmourGroup(payload, i);
    assert Pow2(6) == 64;
    BinToNatOfNatToBin(ArmourValue(payload[i]).value, 6);
  }

  /** `sixbit_to_binary`: appends the six-digit group of each character in a loop. */
  method SixbitToBinary(payload: string) returns (r: Result<string, PyError>)
    ensures r == Unarmour(payload)
  {
    var binary := "";
    var k := 0;
    while k < |payload|
      invariant k <= |payload|
      invariant Unarmour(payload[..k]) == Ok(binary)
    {
      var index := SixbitIndex(payload[k]);
      if index.Err? {
        return Err(ValueError);
      }
      assert payload[..k + 1][..k] == payload[..k];
      binary := binary + NatToBin(index.value, 6);
      k := k + 1;
    }
    assert payload[..k] == payload;
    return Ok(binary);
  }
}
