# Bobcat miner facade, modelled in Dafny

The `Bobcat` class of the bobcat_miner package is a read-only facade over a
Helium hotspot's diagnostic HTTP endpoints. It keeps five raw payload
caches: `status_data`, `miner_data`, `temp_data`, `speed_data` and
`dig_data`. Every getter that reads a cache directly runs the same guard,
`if not self.x_data: self.refresh_x()`, and then derives its value from that
one cache. `name`, `highest_temp`, `temp0_c`, `temp1_c`, `temp0_f` and
`temp1_f` have no guard of their own: they reach a guard through other
getters. `name` goes through `animal` (`Facade.Bobcat.Name`), and
`highest_temp` goes through `temp0`, `temp1` and then the larger of the two
once more (`Facade.Bobcat.HighestTemp`). A derivation is one of the
following:

- a plain `dict.get`;
- a `get` with a default;
- a lookup in the nested `"miner"` map;
- the numeric-or-passthrough coercion (`int(v) if v.lstrip("-").isdigit() else v`);
- a newline join;
- the `name` capitalisation;
- the larger of the two temperature sensors.

The model has these parts:

- `errors.dfy`: the failures a getter can raise (`AttributeError`,
  `TypeError`, `ValueError`, a transport failure) and a `Result` type.
- `json.dfy`: decoded JSON values, with Python's `dict.get` and truthiness.
- `text.dfy`: ASCII `isdigit`, `lstrip`, `split`, `join` and `capitalize`,
  with their round-trip lemmas.
- `fields.dfy`: Python `int()` on a JSON value, the counter coercion, the
  `name` rendering, the newline join, the `error` truthiness rule, the
  nested `"miner"` lookup and the temperature maximum.
- `cache.dfy`: the five slots and the lazy-refresh guard. An empty payload
  is falsy, so it triggers a new refresh.
- `properties.dfy`: every property getter as a function from its cache's
  payload to the value it returns, or the exception it raises.
- `session.dfy`: a read as a function of the caches, and sequences of reads.
  It proves that caches are filled lazily, at most once while refreshes
  deliver non-empty payloads, and independently of each other.
- `bobcat.dfy`: the `Bobcat` class itself. It has the five cache fields,
  the refresh operation and the getters as methods that update the fields
  in place. Each method is proved equal to the functional model.
- `examples.dfy`: the documented behaviour on concrete inputs.

The transport is not modelled. A refresh operation's answer is a parameter
(`response`): either the payload the device returned or a transport failure.

Two behaviours of the code are worth stating plainly:

- The coercion guard strips every leading minus sign (`lstrip("-")`), not
  only a single one. So "--5" passes the guard and `int` then raises
  ValueError. The model keeps that failure (`Fields.CoerceManyMinus`,
  `Examples.CoerceDoubleMinusExample`).
- `p2p_status` is joined with no default. An absent field therefore makes
  the getter raise TypeError instead of giving empty text
  (`Properties.AbsentFieldFailures`). Only `peerbook` defaults to an empty
  list.

## Model

| member | source | states |
|---|---|---|
| Text.LStrip | src/bobcat_miner/bobcat.py:55 | `lstrip("-")` never leaves more than it was given, and what it leaves never starts with a minus |
| Text.LStripRemoves | src/bobcat_miner/bobcat.py:55 | what `lstrip` leaves is a suffix of the input, and every character it removes is a minus |
| Text.Split | src/bobcat_miner/bobcat.py:113 | `split("-")` yields one more piece than there are hyphens, and no piece contains a hyphen |
| Text.JoinSplit | src/bobcat_miner/bobcat.py:113 | joining the pieces of a split with the same separator gives back the original text |
| Text.SplitJoin | src/bobcat_miner/bobcat.py:185 | splitting a join of separator-free pieces gives back the pieces |
| Fields.ParseIntRoundTrip | src/bobcat_miner/bobcat.py:244 | `int` reads back the decimal text of every integer, negative ones included |
| Fields.ParseIntAccepts | src/bobcat_miner/bobcat.py:244 | `int` accepts exactly an optional sign followed by at least one digit, so any other text (a sentinel such as "syncing", empty text, a lone sign) raises ValueError. The result is the digits' value, negated after a minus |
| Fields.IntOfStrict | src/bobcat_miner/bobcat.py:244 | `int(v)` succeeds exactly on integers, booleans and integer text, raises TypeError on an absent field (`None`), and reads back every integer and its text |
| Fields.CoerceUnsigned | src/bobcat_miner/bobcat.py:54-55 | a counter whose text is all digits becomes the number those digits denote |
| Fields.CoerceNegative | src/bobcat_miner/bobcat.py:54-55 | a counter whose text is one minus and then digits becomes the negated number |
| Fields.CoerceManyMinus | src/bobcat_miner/bobcat.py:54-55 | text with two or more leading minus signs and then digits passes the guard, and `int` then raises ValueError |
| Fields.CoerceDoubleMinus | src/bobcat_miner/bobcat.py:54-55 | exactly two minus signs followed by digits raise ValueError |
| Fields.CoerceText | src/bobcat_miner/bobcat.py:54-55 | the coercion's outcome on every text, by the number of leading minus signs: passthrough when the rest is not digits, otherwise the number, its negation, or ValueError for two or more |
| Fields.CoerceIntText | src/bobcat_miner/bobcat.py:72-73 | the text of any integer is coerced to that integer |
| Fields.CoercePassThrough | src/bobcat_miner/bobcat.py:141-142 | text holding a character that is neither a minus nor a digit is returned unchanged |
| Fields.HumanNameChars | src/bobcat_miner/bobcat.py:113 | `name` has the identifier's length: each hyphen becomes a space, the first letter of each word is upper-case and every other letter lower-case |
| Fields.HumanNameSpaces | src/bobcat_miner/bobcat.py:113 | `name` has one space for each hyphen and each space of the identifier |
| Fields.JoinLinesRoundTrip | src/bobcat_miner/bobcat.py:220 | a list of newline-free lines is joined into text that splits back on newlines into the same lines |
| Fields.ErrorOrNone | src/bobcat_miner/bobcat.py:235-237 | the result is `None` exactly when the field is falsy, and otherwise the field itself |
| Fields.MinerLookup | src/bobcat_miner/bobcat.py:127 | gives `None` when the nested "miner" map is absent, raises exactly when "miner" is present and not a map, and otherwise gives the key's value in that map |
| Fields.Highest | src/bobcat_miner/bobcat.py:256 | the result is one of the two readings and at least both of them, and on a tie it is the second sensor's |
| Cache.Caches.With | src/bobcat_miner/bobcat.py:45-46 | a refresh replaces its own slot and leaves the four others unchanged |
| Cache.Access | src/bobcat_miner/bobcat.py:45-46 | the guard refreshes exactly when the slot is empty or holds an empty payload, and changes no other slot. Without a refresh it reads the cached payload. On success the slot holds the answer, and a failed refresh changes nothing and propagates |
| Session.Read | src/bobcat_miner/bobcat.py:42-47 | one getter call: whether it refreshes, the new caches and the value, for a populated, a freshly fetched and a failed slot |
| Session.Run | src/bobcat_miner/bobcat.py:42-325 | a session of getter calls yields one result per call |
| Session.ReadsOfPopulatedSlots | src/bobcat_miner/bobcat.py:45-47 | reads of populated slots fetch nothing, change no cache, and return their derivations of the cached payloads |
| Session.RepeatedReadsAgree | src/bobcat_miner/bobcat.py:45-47 | repeated reads of one property on populated slots return the same value |
| Session.UntouchedSlot | src/bobcat_miner/bobcat.py:281-283 | a slot that no read of the session depends on is never refreshed and keeps its content |
| Session.PopulatedSlotStays | src/bobcat_miner/bobcat.py:302-304 | a slot holding a non-empty payload is never refreshed again and keeps that payload |
| Session.RefreshCalledOnce | src/bobcat_miner/bobcat.py:85-86 | when refreshes deliver non-empty payloads, a session calls each refresh once if its slot starts falsy and some read needs it, and never otherwise |
| Properties.CounterValues | src/bobcat_miner/bobcat.py:49-73 | the four counters turn integer text into the integer, pass other text through, and raise AttributeError on an absent field |
| Properties.AbsentFieldDefaults | src/bobcat_miner/bobcat.py:149-325 | (lines 149, 156, 199, 220, 235-237 and 325) absent `ports`, `miner_alert` and `miner_desc` give an empty map, absent `records` an empty list, absent `peerbook` empty text and absent `error` `None` |
| Properties.AbsentMinerMap | src/bobcat_miner/bobcat.py:163-178 | when "miner" is absent, `state`, `miner_status`, `names`, `image` and `created` are `None` |
| Properties.AbsentFieldFailures | src/bobcat_miner/bobcat.py:185 | absent `p2p_status`, `temp0` or `temp1` make their getters raise TypeError, and so does `highest_temp` when `temp0` is absent |
| Properties.HighestTempValue | src/bobcat_miner/bobcat.py:253-256 | `highest_temp` succeeds exactly when both sensors read, and is then the larger reading, or the second sensor's on a tie |
| Properties.NameValue | src/bobcat_miner/bobcat.py:110-113 | `name` succeeds exactly when `animal` is text, and is then its title rendering with one space per hyphen or space |
| Properties.PeerbookValue | src/bobcat_miner/bobcat.py:215-220 | `peerbook` of newline-free entries splits back into those entries |
| Properties.ErrorValue | src/bobcat_miner/bobcat.py:229-237 | `error` is `None` exactly when the field is absent or falsy, and otherwise the field |
| Properties.TemperatureReadings | src/bobcat_miner/bobcat.py:239-251 | `temp0` and `temp1` are `int` of their fields. `highest_temp` fails with the first failing sensor, otherwise it is the maximum, and any successful reading means the payload is non-empty |
| Facade.Bobcat.constructor | src/bobcat_miner/bobcat.py:17-40 | construction leaves every cache empty and calls no refresh |
| Facade.Bobcat.Refresh | src/bobcat_miner/bobcat.py:46 | a refresh stores the answer in its own slot only, or on failure changes nothing, and is logged once |
| Facade.Bobcat.Read | src/bobcat_miner/bobcat.py:42-47 | a getter call updates the fields and returns the value exactly as `Session.Read` describes, logging a refresh only when the guard fires |
| Facade.Bobcat.Name | src/bobcat_miner/bobcat.py:110-113 | `name` reads `animal` through its getter, with the same effect and value as one read of Name |
| Facade.Bobcat.HighestTemp | src/bobcat_miner/bobcat.py:253-256 | `highest_temp` reads the temperature cache three times, refreshes it at most once, and equals one read of HighestTemp |
| Examples.CoerceNumberExamples | src/bobcat_miner/bobcat.py:54-55 | "42" becomes 42 and "-3" becomes -3 |
| Examples.CoerceSentinelExample | src/bobcat_miner/bobcat.py:54-55 | "syncing" is passed through |
| Examples.CoerceEmptyExamples | src/bobcat_miner/bobcat.py:54-55 | "" and "-" are passed through, and an absent field raises AttributeError |
| Examples.CoerceDoubleMinusExample | src/bobcat_miner/bobcat.py:54-55 | "--5" passes the guard and raises ValueError |
| Examples.SplitAnimalExample | src/bobcat_miner/bobcat.py:113 | "red-fox-eagle" splits into "red", "fox", "eagle" |
| Examples.CapitalizeAnimalExample | src/bobcat_miner/bobcat.py:113 | those words capitalise to "Red", "Fox", "Eagle" |
| Examples.JoinNameExample | src/bobcat_miner/bobcat.py:113 | those words join with spaces into "Red Fox Eagle" |
| Examples.NameExample | src/bobcat_miner/bobcat.py:113 | "red-fox-eagle" is named "Red Fox Eagle" |
| Examples.PeerbookExample | src/bobcat_miner/bobcat.py:220 | two peers are joined with a newline, and an absent peer book gives empty text |
| Examples.TemperatureExample | src/bobcat_miner/bobcat.py:256 | readings "51" and "47" give a highest temperature of 51 |
| Examples.TemperatureSentinelExample | src/bobcat_miner/bobcat.py:244 | a `temp0` reading of "syncing" raises ValueError, in `temp0` and in `highest_temp` |
| Examples.ErrorExample | src/bobcat_miner/bobcat.py:235-237 | an absent or empty error is `None`, and "disk full" is returned as it is |

## Left out

- The HTTP transport (`BobcatAPI`, the `refresh_*` bodies, host discovery, `dry_run`) is not part of this model. A refresh's answer is a parameter: a payload or a transport failure.
- A failed refresh is assumed to leave its slot unchanged. The refresh bodies are not part of this model.
- The logger set up in the constructor (lines 31-38) is left out. It has no effect on any getter's value.
- `temp0_f` and `temp1_f` are left out because they use floating-point rounding. `temp0_c` and `temp1_c` are plain aliases of `temp0` and `temp1`.
- Floats in decoded JSON are left out. The JSON model has null, booleans, integers, text, lists and maps.
- Concurrency is left out. The code is single-threaded and has no lock, so there is no single-flight guarantee to prove. `Session.RefreshCalledOnce` is the sequential at-most-once property.
- Session.RepeatedReadsAgree: holds only while callers do not mutate what they receive. `ports`, `miner_alert`, `miner_desc` and `dig_records`, the nested `"miner"` getters, and every plain `get` of a field that holds a map or a list return the object stored in the cache, not a copy. A caller that mutates that dict or list changes what later reads return. The model's values are immutable, so this aliasing is not captured.
- Text.IsDigits: ASCII digits only. Python's `isdigit` also accepts other Unicode digits.
- Text.Capitalize: ASCII letters only. Python's `capitalize` also case-maps other Unicode letters.
- Fields.ParseInt: does not accept the surrounding whitespace or the underscores between digits that Python's `int` tolerates.
- Fields.JoinLines: `"\n".join` over a map, which joins its keys, is modelled as TypeError.
