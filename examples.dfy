/** The documented behaviour on concrete inputs, derived from the general
    lemmas. */
module Examples {
  import opened Errors
  import opened Json
  import opened Text
  import opened Fields
  import opened Properties

  /** "42" becomes 42 and "-3" becomes -3. */
  lemma CoerceNumberExamples()
    ensures Coerce(Str("42")) == Ok(Int(42))
    ensures Coerce(Str("-3")) == Ok(Int(-3))
  {
    assert IsDigits("42") && "42"[..1] == "4";
    assert DigitsValue("42") == 10 * DigitsValue("4") + 2;
    CoerceUnsigned("42");
    assert "-3"[1..] == "3" && IsDigits("3");
    CoerceNegative("-3");
  }

  /** "syncing" is not an integer and passes through. */
  lemma CoerceSentinelExample()
    ensures Coerce(Str("syncing")) == Ok(Str("syncing"))
  {
    assert "syncing"[0] == 's';
    CoercePassThrough("syncing");
  }

  /** "" and "-" are not integers either, and pass through; an absent field
      has no `lstrip`. */
  lemma CoerceEmptyExamples()
    ensures Coerce(Str("")) == Ok(Str(""))
    ensures Coerce(Str("-")) == Ok(Str("-"))
    ensures Coerce(Null) == Err(AttributeError)
  {
  }

  /** "--5" passes the `lstrip` guard and then fails in `int`. */
  lemma CoerceDoubleMinusExample()
    ensures Coerce(Str("--5")) == Err(ValueError)
  {
    assert "--5"[2..] == "5" && IsDigits("5");
    CoerceDoubleMinus("--5");
  }

  lemma SplitAnimalExample()
    ensures Split("red-fox-eagle", '-') == ["red", "fox", "eagle"]
  {
    var words := ["red", "fox", "eagle"];
    assert Join('-', words) == "red-fox-eagle" by {
      assert words[1..] == ["fox", "eagle"] && words[1..][1..] == ["eagle"];
    }
    SplitJoin(words, '-');
  }

  lemma CapitalizeAnimalExample()
    ensures CapitalizeAll(["red", "fox", "eagle"]) == ["Red", "Fox", "Eagle"]
  {
    assert Capitalize("red") == "Red" by {
      assert LowerAll("ed") == "ed";
    }
    assert Capitalize("fox") == "Fox" by {
      assert LowerAll("ox") == "ox";
    }
    assert Capitalize("eagle") == "Eagle" by {
      assert LowerAll("agle") == "agle";
    }
    var words := ["red", "fox", "eagle"];
    assert words[1..] == ["fox", "eagle"] && words[1..][1..] == ["eagle"];
  }

  lemma JoinNameExample()
    ensures Join(' ', ["Red", "Fox", "Eagle"]) == "Red Fox Eagle"
  {
    var names := ["Red", "Fox", "Eagle"];
    assert names[1..] == ["Fox", "Eagle"] && names[1..][1..] == ["Eagle"];
  }

  /** "red-fox-eagle" is named "Red Fox Eagle". */
  lemma NameExample()
    ensures HumanName("red-fox-eagle") == "Red Fox Eagle"
  {
    SplitAnimalExample();
    CapitalizeAnimalExample();
    JoinNameExample();
  }

  /** ["peerA", "peerB"] is joined into "peerA\npeerB"; an absent peer book
      gives empty text. */
  lemma PeerbookExample()
    ensures MinerValue(Peerbook, map["peerbook" := List([Str("peerA"), Str("peerB")])]) == Ok(Str("peerA\npeerB"))
    ensures MinerValue(Peerbook, map[]) == Ok(Str(""))
  {
    var items := [Str("peerA"), Str("peerB")];
    assert Texts(items) == ["peerA", "peerB"];
    assert Join('\n', ["peerA", "peerB"]) == "peerA\npeerB";
  }

  /** Readings "51" and "47": the highest temperature is 51. */
  lemma TemperatureExample()
    ensures TempValue(HighestTemp, map["temp0" := Str("51"), "temp1" := Str("47")]) == Ok(Int(51))
  {
    var p := map["temp0" := Str("51"), "temp1" := Str("47")];
    assert IsDigits("51") && "51"[..1] == "5" && DigitsValue("51") == 10 * DigitsValue("5") + 1;
    assert Reading(p, "temp0") == Ok(51);
    assert IsDigits("47") && "47"[..1] == "4" && DigitsValue("47") == 10 * DigitsValue("4") + 7;
    assert Reading(p, "temp1") == Ok(47);
    TemperatureReadings(p);
  }

  /** A sensor reading "syncing" makes `temp0` and `highest_temp` raise
      ValueError. */
  lemma TemperatureSentinelExample()
    ensures TempValue(Temp0, map["temp0" := Str("syncing")]) == Err(ValueError)
    ensures TempValue(HighestTemp, map["temp0" := Str("syncing"), "temp1" := Str("47")]) == Err(ValueError)
  {
    ParseIntAccepts("syncing");
    assert !IsDigit("syncing"[0]);
  }

  /** An absent error and an empty error are both `None`; "disk full" is
      returned as it is. */
  lemma ErrorExample()
    ensures MinerValue(ErrorField, map[]) == Ok(Null)
    ensures MinerValue(ErrorField, map["error" := Str("")]) == Ok(Null)
    ensures MinerValue(ErrorField, map["error" := Str("disk full")]) == Ok(Str("disk full"))
  {
  }
}
