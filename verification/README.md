# Binliner: a fixed-width bit string with a validation rule

Binliner turns a list of PHP values into a fixed-width string of '0' and '1'
characters, one per value by PHP truthiness, right-padded with '0' to a
configured size. It reads and writes single positions and reads the whole
string as text or as a base-2 integer. It then checks the string against a
validation rule. A rule is a predicate, an exact string, an exact integer, or
an array whose elements are strings and integers. Each array element is
compared after converting the input to that element's own type.

The model is purely functional:

- `Results` holds `Result` and the three exceptions the component throws.
- `PhpValue` holds PHP values, truthiness, `gettype` and `abs`.
- `BitString` holds bit strings, their base-2 value, its fixed-width inverse
  `ToBits`, and `str_pad`.
- `Validation` holds the rule.
- `Binliner` holds the object. The PHP object is changed in place by `set`,
  which returns the same object. Here `Set` returns the updated state, and a
  chain of calls is `ApplyAll`.
- `Examples` restates the repository's test scenarios and the four-flag truth
  table.

How the model resolves gaps in the source:

- The `Binliner` class in src/Binliner.php stores the validation payload
  without using `Validation` and silently ignores unsupported payloads. The tests call
  `isValid`, `get` and `toInt` and expect the throw. So the model builds the
  rule with the throwing `Validation` constructor. The size check comes first,
  as in the source.
- `isValid()` is the rule applied to the stored string.
- `get($pos, $type = 'integer')` uses the same position check as `set`, then
  juggles the one character there to `$type`.
- `toInt()` is `intval()`.
- The default rule is a string of '1's, one per ARGUMENT. The code computes it
  before an explicit size replaces the argument count, so it is "all bits set"
  only when no explicit size is given. The model follows the code.
  `Binliner.DefaultRuleUnsatisfiableWhenPadded` shows the consequence: with an
  explicit size larger than the argument count and no payload, the object can
  never be valid.

## Model

| member | source | states |
|---|---|---|
| PhpValue.Truthy | src/Binliner.php:41 | a value is falsy exactly when it is null, false, 0, "", "0" or the empty array; every other value, objects included, is truthy |
| PhpValue.BitChar | src/Binliner.php:41 | the bit of a value is '0' or '1', and '1' exactly when the value is truthy |
| PhpValue.TypeName | src/Validation.php:14-20 | `gettype` names "string", "integer", "array" exactly for strings, integers and arrays, and "object" for every object, closures included |
| BitString.Repeat | src/Binliner.php:17 | `str_pad('', n, c)` is n characters, all c |
| BitString.PadRight | src/Binliner.php:43 | right padding never shortens: the result keeps the input as its prefix, has length max(length, input length), and every added character is the pad character |
| BitString.BinVal | src/Validation.php:27-28 | the base-2 value of a bit string of width w lies in [0, 2^w) |
| BitString.BinValOfToBits | src/Validation.php:27-28 | parsing the w-bit encoding of any n < 2^w gives n back |
| BitString.ToBitsOfBinVal | src/Validation.php:27-28 | encoding a bit string's value at the string's own width gives the string back |
| BitString.BinValInjective | src/Validation.php:27-28 | two bit strings of one width with the same value are equal |
| BitString.BinValIgnoresLeadingZeros | src/Validation.php:27-28 | prepending '0's does not change the base-2 value |
| Validation.New | src/Validation.php:9-22 | construction succeeds exactly for a callable, string, integer or array payload, and the rule keeps that payload unchanged; otherwise it throws naming the payload's type |
| Validation.Juggle | src/Validation.php:24-33 | the result is an integer exactly when the target type is "integer"; a string result is the input unchanged; an integer result lies in [0, 2^width), so the empty string gives 0, and its encoding at the input's width is the input |
| Validation.ElementMatches | src/Validation.php:47 | an array element matches exactly when it is a string equal to the input or an integer equal to the input's base-2 value; other element types never match |
| Validation.AnyMatch | src/Validation.php:46-52 | the first-match loop returns true exactly when some element matches |
| Validation.IsValid | src/Validation.php:35-54 | predicate rule: the predicate's answer; string rule: exact string equality; integer rule: equality with the base-2 value; array rule: some element matches by its own type |
| Validation.AnyOfIgnoresOrderAndDuplicates | src/Validation.php:46-50 | two array rules holding the same elements accept the same inputs, whatever the order and repetitions |
| Validation.AnyOfWithoutScalarsRejects | src/Validation.php:45-53 | an array rule without string or integer elements, the empty array included, rejects every input |
| Validation.ExactIntIsPaddedPattern | src/Validation.php:42-44 | at width w, the integer rule n accepts exactly what the string rule of n's w-bit encoding accepts, whenever n fits in w bits |
| Validation.ExactIntOutOfRangeRejects | src/Validation.php:42-44 | an integer rule that is negative or does not fit in the input's width rejects the input |
| Binliner.ArgBits | src/Binliner.php:40-42 | one bit per argument, in order, '1' exactly for truthy arguments |
| Binliner.New | src/Binliner.php:14-44 | size is abs(config size) when it is an integer, else the argument count; more arguments than an explicit size throws naming the normalised size; an unsupported payload throws naming its `gettype`; the stored string has length size, starts with the argument bits, ends in '0's; the rule is the payload's rule, or one '1' per argument by default |
| Binliner.ToString | src/Binliner.php:57-60 | the string form is the stored bit string unchanged, of length size |
| Binliner.IntVal | src/Binliner.php:62-65 | the integer form is below 2^size, and its size-bit encoding is the stored string |
| Binliner.Set | src/Binliner.php:67-79 | a position whose absolute value is at least size throws naming that absolute value; otherwise only the character at abs(pos) changes, to '1' exactly when the value is truthy, and size and rule are kept |
| Binliner.Get | test/BinlinerTest.php:20-22 | the same position check and exception as set; otherwise the bit at abs(pos) as the integer 0 or 1 (the default type), or as a one-character string |
| Binliner.IsValid | test/BinlinerTest.php:121-136 | the object is valid by the rule applied to its string form, with integer rules and integer array elements compared against its integer form |
| Binliner.ApplyAll | src/Binliner.php:67-79 | a chain of writes succeeds exactly when every position is in range, and keeps size, rule and the invariant |
| Binliner.ApplyAllFailsAtFirstIllegal | src/Binliner.php:69-71 | a failing chain throws naming the absolute position of its first out-of-range write |
| Binliner.ApplyAllLastWriteWins | src/Binliner.php:73-77 | after a successful chain, each written position holds the bit of its last write, and every unwritten position keeps its old bit |
| Binliner.ChainIsSequential | src/Binliner.php:78 | a chain of calls equals running its first part and then the rest on the returned object |
| Binliner.GetAfterSet | src/Binliner.php:73-77 | reading a position just written gives the written bit, as integer and as string |
| Binliner.SetLastWriteWins | src/Binliner.php:73-77 | writing one position twice equals writing only the second value |
| Binliner.SetCommutes | src/Binliner.php:73-77 | writes to two different positions commute |
| Binliner.DefaultRuleMeansAllSet | src/Binliner.php:16-17 | with no explicit size and no payload, the object and every object a chain of writes makes from it is valid exactly when all bits are '1' |
| Binliner.DefaultRuleUnsatisfiableWhenPadded | src/Binliner.php:16-24 | with an explicit size above the argument count and no payload, no chain of writes makes the object valid |
| Examples.FourFlagsAccepted | test/ExamplesTest.php:58-70 | four flags under the rule [8, 9, 14, 15] are valid iff the first is set and the third equals the second; when valid, the integer exceeds 10 iff the second and third are set, and bit 3 reads 0 iff the fourth is clear |
| Examples.FourFlagFlow | test/ExamplesTest.php:55-93 | constructing from four booleans with the rule [8, 9, 14, 15] succeeds and follows the truth table of the verbose flow |
| Examples.BasicValidationStart | test/BinlinerTest.php:11-12 | size 2 with no arguments gives "00" |
| Examples.BasicValidationWrites | test/BinlinerTest.php:14-24 | the writes 1 at 0, 1 at 1 and "0" at "0" give "10", "11" and "01" |
| Examples.BasicValidationReads | test/BinlinerTest.php:21-22 | bit 1 of "11" reads as 1 and as "1" |
| Examples.BasicValidationVerdicts | test/BinlinerTest.php:13-25 | under [1, 2], "10" and "01" are valid and "00" and "11" are not |
| Examples.ChainedStart | test/BinlinerTest.php:30-31 | size 3 with the integer rule 5 starts as "000" |
| Examples.ChainedWritesFirst | test/BinlinerTest.php:33-34 | the chain 1, 0, 1 gives "101" |
| Examples.ChainedWritesSecond | test/BinlinerTest.php:36-37 | the chain 1, 1, 1 gives "111" |
| Examples.ChainedVerdicts | test/BinlinerTest.php:32-38 | under the integer rule 5, "101" is valid and has value 5, while "000" and "111" are not valid |
| Examples.WithoutConfig | test/BinlinerTest.php:41-49 | falsy arguments give "00000", invalid; truthy ones give "1111", valid under the default rule |
| Examples.StringRuleIsExact | src/Validation.php:42-44 | the string rule "11" rejects "011" and accepts "11" |
| Examples.IntegerRuleIgnoresLeadingZeros | src/Validation.php:42-44 | the integer rule 3 accepts "11" and "011", and 1 accepts "01" |
| Examples.MixedArrayRule | test/BinlinerTest.php:121-136 | the rule [2, "11"] accepts "10" and "11" and rejects "01" |
| Examples.Exceptions | test/BinlinerTest.php:149-172 | size -1 with two arguments throws naming 1; writing position 5 of a size-5 object throws naming 5; an object payload throws naming "object" |

## Left out

- Validation.Juggle: takes only strings of '0' and '1'. PHP's `intval($s, 2)` parsing of a leading prefix of other strings (whitespace, sign, junk) is not modelled. Every caller passes stored bits.
- Validation.IsValid, Validation.ElementMatches, Validation.AnyMatch: take only strings of '0' and '1', for the same reason.
- BitString.BinVal: is unbounded. PHP saturates `intval` at PHP_INT_MAX for strings longer than 63 bits, and that is not modelled.
- Binliner.IntVal: unbounded for the same reason.
- Binliner.Set: takes an integer position. PHP's `abs` of numeric strings and floats (the tests pass '0') is not modelled beyond the integer it denotes.
- Binliner.Get: likewise takes an integer position.
- Validation.Identical: models PHP's `===` only for a juggled string or integer on the right, the only way the validator uses it.
- Predicates are total functions from strings to booleans. User callables returning non-booleans are not modelled. Strings and arrays that name a PHP function would be callable in PHP; they are classified as string and array rules here.
- Floats and resources are not values of the model. Every object other than a closure is one opaque object, always truthy. PHP's `is_callable` also accepts an object with an `__invoke` method; the model treats every non-closure object as not callable, so such a payload is rejected.
- Binliner.ApplyAll: a failing chain returns only the exception. In PHP the writes before the failing `set` stay in the object, because `set` mutates in place; the model does not keep that partly written state.
- Exception messages are not formatted. Each exception carries the number or type name its message mentions.
- The object's in-place mutation and identity (`return $this`) become returned states. `Binliner.juggle` duplicates `Validation::juggle` and is modelled once, as `Validation.Juggle`.
- The `Stringable` interface, the namespaces, and the message-logging closures of the example test are not modelled.
- There is no concurrency in the component, and none is modelled.
