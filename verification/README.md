# Proofs about the base library of Mozkey

This project models the parts of `src/base` whose correctness rests on more than one
function, and proves what they are for. Code that works in place or step by step is a
method or a class with its loops and invariants, proved against a specification function
or a definition from a standard; the theorems are lemmas about those specifications.
Concurrent code is a set of actions, one for each access to shared memory, and the theorems
hold in every reachable state.

- **Obfuscation** (`Gf256`, `SBox`, `SBoxDerivation`, `Fips197`, `CipherEquations`,
  `CipherBlockChaining`, `UnverifiedAes256`, `Encryptor`). The round functions of FIPS 197 work on a
  16-byte stretch of a caller's array. The substitution table is the one of section 5.1.1, the affine
  image of the inverse in GF(2^8), and the cipher is what the equations of the standard determine
  word by word. Column mixing is inverted through the algebra of GF(2^8): both matrices are linear,
  and they undo each other on the four unit columns. Rounds, blocks, chaining and padding compose to
  one result: the ciphertexts that decryption accepts are exactly what encryption produces.
- **Kanji numerals** (`NumberParser`, `GroupReader`, `DroppedTokens`, `NumberPrinter`,
  `PrintedStyles`, `NumberNormalizer`, `NumberOutputs`, `NumberRoundTrip`, `OldKanjiRoundTrip`). The
  parser's iterator is an index, its 64-bit arithmetic is explicit, and its result is an exact sum or
  a rejection. Its three steps over the thousands, hundreds and tens of a group read the same as one
  pass that keeps a falling limit, and the number is the worth of the tokens exactly when no step
  jumps. What the printer prints is read back; for the old style, whose characters and ones the parser
  does not all accept, exactly the forms that are read back are characterised. Both outputs of
  NormalizeNumbers are tied to the input: the Kanji output is read again as the same number, and
  the decimal output of digits is these digits.
- **Text** (`SplitCsv`, `CsvRoundTrip`, `Utf8`, `Utf8Table`, `Utf8Strings`, `Utf8Encoder`,
  `Utf8Iterators`, `Graphemes`, `GraphemeBreaks`, `Utf8Decoder`, `TextSanitizer`). There are two
  decoders: `util.cc` accepts the 31-bit encoding of RFC 2279, `strings/internal` accepts Table 3-7
  of the Unicode Standard. Where graphemes are cut is characterised by the bytes of the text.
- **Concurrency** (`RecursiveMutex`, `TaskManager`, `ProcessMutex`). `owner_` is read with
  relaxed order, so the model lets a load return old values; fcntl locks are lost when any
  descriptor of the file is closed, and are so in the model.
- **Dates** (`CivilDays`, `DoubleArray`, `FullWidthAscii`, `TrailingDate`, `DateTexts`, `DateCut`). The text is
  cut, converted to half width with a double array, and scanned from its end. The lookup is proved
  for any double array, the shipped one is modelled cell by cell and holds exactly the 95 rules of
  its source file, and what the cut in front of the conversion can change is characterised.
- **SHA-1 padding and generated source** (`Sha1Padding`, `CodegenByteArrayStream`).

`Basics` holds what several modules share.

## Where the code differs from what one would expect

- The list behind a number is not always summed: behind a higher place, a digit run that is too
  long for its place or stands before a rank is dropped with everything after it, and the list is
  still accepted: the tokens 1000, 1, 2, 10 are read as 1000 (`NumberParser.RestIsDropped`,
  `DroppedTokens.DroppedTwelveTens`). An accepted list is worth its tokens exactly when no step
  meets such a run, and less otherwise (`DroppedTokens.ValueIsExact`).
- The old Kanji style does not survive the parser in general (`OldKanjiRoundTrip.TenIsRejected`);
  `OldStyleIsReadBack` gives the exact condition, and `EveryOldFormIsReadBack` adds the two single
  characters: the one for ten is read back, the one for a thousand is not. Zero, a single character
  in this style, is read back.
- The Kanji output of NormalizeNumbers is read again as the same number only when the input has no
  zero digit: a zero becomes 〇, which the parser's table lacks (`NumberOutputs.KanjiOutputIsRead`,
  `ZeroOutputIsNotRead`).
- NormalizeNumbers clears its Kanji and Arabic outputs, but the caller's suffix keeps its old
  contents when the input has no suffix (`NumberNormalizer.NormalizeNumbersInternal`).
- A refused DecryptString leaves the transformed blocks in the string when the size was right and
  only the padding was not (`Encryptor.DecryptString`).
- An empty last field of a CSV line is lost when it is alone or follows a closing quote
  (`CsvRoundTrip.Recovered`). Behind a quote that is never closed everything is one field, and when
  what the in-place copy leaves behind that field is a single comma there is an empty field more
  (`CsvRoundTrip.OpenQuote`).
- U+0000 is encoded as nothing, and codepoints from 2^26 to 2^27 - 1 are damaged because the
  encoder's five-byte limit is not the decoder's (`Utf8Encoder.EncodedIsReadBack`,
  `StringRoundTrip`, `CodepointRoundTrip`). They, and those from 2^31 on, lose their high bits and are
  read as what is left, or not at all when that has a shorter form (`Utf8Encoder.OthersAreClipped`).
- Lock on an object that is already locked keeps the lock and returns false (`ProcessMutex.CallEnds`).
- A date without a year is found whenever it occurs from 90 days back to 275 days ahead, but for
  one case: on May 30 before a leap year its February 29, 275 days ahead, is not found
  (`CivilDays.Resolves`, `BlindSpot`).
- A date at the end of a long text can be missed when the text is not well-formed: the conversion
  steps by the length that the first byte of a character announces, so it can step over the place
  where the text is cut. Sixty bytes E3 followed by １/5 end, converted, with a date, but without
  their first byte they do not (`DateCut.LostDate`). What can be cut off in front of every text is
  exactly what no step runs over the end of (`DateCut.CutIsSafe`); that is so in every well-formed
  text (`DateCut.WellFormedIsWhole`).
- SplitLastChar32 stores 0 when it refuses, but for a codepoint with too many trailing bytes behind
  it, which is stored (`Utf8Iterators.SplitLastChar32`).
- A bulk write to the code generator before a variable is open goes past the buffer to the sink
  when it does not fit (`CodegenByteArrayStream.StreamBuf.Xsputn`).
- A block count of SHA-1 wraps around for sizes of 2^64 - 72 bytes and more
  (`Sha1Padding.CountIsExact`).

## Model

| member | source | states |
|---|---|---|
| Gf256.MixColumnInverse | src/base/unverified_aes256.cc:105-139 | the two column transformations undo each other, in both orders, for every column over GF(2^8) |
| Gf256.GMulPlus | src/base/unverified_aes256.cc:100-139 | multiplication by a constant polynomial distributes over the sum of bytes |
| Gf256.GMulMultiplies | src/base/unverified_aes256.cc:100-139 | multiplying twice is multiplying by the product of the polynomials |
| Gf256.SmallMultiples | src/base/unverified_aes256.cc:100-139 | the table-free products by 2, 3, 9, 11, 13 and 14 in terms of doubling |
| SBox.SubInverse | src/base/unverified_aes256.cc:43-89 | the inverse substitution table undoes the substitution table, for every byte |
| SBox.InvSubInverse | src/base/unverified_aes256.cc:43-89 | the substitution table undoes the inverse table, for every byte |
| SBoxDerivation.InverseIsInverse | src/base/unverified_aes256.cc:43-89 | the byte that the affine transformation of FIPS 197 section 5.1.1 makes a table entry of is the inverse of its index in GF(2^8), for every nonzero index |
| SBoxDerivation.SubIsAffineOfInverse | src/base/unverified_aes256.cc:43-89 | all 256 entries: the entry of 0 is the affine image of 0, and that of any other x is the affine image of y exactly when x times y is 1 in GF(2^8) |
| Fips197.ShiftRowsInverse | src/base/unverified_aes256.cc:235-291 | the two row permutations undo each other |
| Fips197.MixColumnsInverse | src/base/unverified_aes256.cc:223-233 | mixing and unmixing a block undo each other |
| Fips197.RoundsInverse | src/base/unverified_aes256.cc:293-319 | any number of rounds is undone by the inverse rounds in reverse order |
| Fips197.CipherInverse | src/base/unverified_aes256.cc:293-319 | for every 240-byte schedule the cipher and the inverse cipher undo each other, in both orders |
| Fips197.RconIsShift | src/base/unverified_aes256.cc:184-195 | the shifted bit used as round constant is the power of x of FIPS 197 section 5.2 |
| Fips197.FirstWord | src/base/unverified_aes256.cc:191-195 | the four unrolled assignments are the word recurrence with rotation, substitution and round constant |
| Fips197.PlainByte | src/base/unverified_aes256.cc:196-209 | the byte loops are the word recurrence for words that are not substituted |
| Fips197.SubstitutedByte | src/base/unverified_aes256.cc:202-204 | the middle loop is the word recurrence with substitution |
| CipherEquations.WordOfKey | src/base/unverified_aes256.cc:181-209 | column c of round key n is word 4n + c of the key expansion |
| CipherEquations.RoundFollows | src/base/unverified_aes256.cc:296-301 | one round gives the words of the round equation: the mixed, shifted and substituted column plus the word of the key schedule |
| CipherEquations.LastFollows | src/base/unverified_aes256.cc:302-304 | the last round gives those of the equation without mixing |
| CipherEquations.CipherIsStandard | src/base/unverified_aes256.cc:293-305 | a block is encrypted to t exactly when the equations of FIPS 197 section 5.1, written out byte by byte, have a run of fifteen states from it that ends in t |
| CipherBlockChaining.RoundTrip | src/base/unverified_aes256.cc:143-179 | over any invertible block transformation, chained decryption undoes chained encryption and the reverse, for every IV and block count |
| CipherBlockChaining.Chained | src/base/unverified_aes256.cc:143-159 | block i of the encryption is the transformation of block i plus the ciphertext block before it, or the IV (SP 800-38A section 6.2) |
| UnverifiedAes256.AddRoundKey | src/base/unverified_aes256.cc:93-98 | adds the round key to the block in place and leaves the rest of the array alone |
| UnverifiedAes256.SubBytes | src/base/unverified_aes256.cc:211-215 | substitutes the block in place |
| UnverifiedAes256.InvSubBytes | src/base/unverified_aes256.cc:217-221 | substitutes the block back in place |
| UnverifiedAes256.MixColumnsImpl | src/base/unverified_aes256.cc:105-118 | one column becomes its product with the matrix of FIPS 197 section 5.1.3 |
| UnverifiedAes256.InvMixColumnsImpl | src/base/unverified_aes256.cc:120-139 | one column becomes its product with the matrix of section 5.3.3 |
| UnverifiedAes256.ShiftRows | src/base/unverified_aes256.cc:235-262 | the swaps through a temporary are the row permutation |
| UnverifiedAes256.InvShiftRows | src/base/unverified_aes256.cc:264-291 | the swaps through a temporary are the inverse row permutation |
| UnverifiedAes256.TransformECB | src/base/unverified_aes256.cc:293-305 | the block becomes its encryption under the schedule |
| UnverifiedAes256.InverseTransformECB | src/base/unverified_aes256.cc:307-319 | the block becomes its decryption under the schedule |
| UnverifiedAes256.MakeKeySchedule | src/base/unverified_aes256.cc:181-209 | fills all 240 bytes with the key expansion of FIPS 197 section 5.2 for Nk = 8 and Nr = 14 |
| UnverifiedAes256.TransformCBC | src/base/unverified_aes256.cc:143-159 | the buffer becomes the chained encryption of its blocks |
| UnverifiedAes256.InverseTransformCBC | src/base/unverified_aes256.cc:161-179 | the buffer becomes the chained decryption of its blocks |
| UnverifiedAes256.CiphersInverse | src/base/unverified_aes256.cc:293-319 | for every key the two block transformations are inverse functions |
| UnverifiedAes256.CbcRoundTrip | src/base/unverified_aes256.cc:143-179 | for every key, IV and block count the two chained transformations undo each other, in both orders |
| Encryptor.GetEncryptedSize | src/base/encryptor.cc:116-122 | the size is the next multiple of the block size, strictly greater than the input's |
| Encryptor.PadIsStandard | src/base/encryptor.cc:195-204 | between one and sixteen bytes are added, each with their number, up to a multiple of sixteen (RFC 5652 section 6.3) |
| Encryptor.UnpadOfPad | src/base/encryptor.cc:195-204 | what is padded is un-padded to itself |
| Encryptor.PadOfUnpad | src/base/encryptor.cc:229-256 | every buffer that un-padding accepts is the padding of its result |
| Encryptor.DecryptUndoesEncrypt | src/base/encryptor.cc:155-257 | decryption gives back every plaintext |
| Encryptor.DecryptAccepts | src/base/encryptor.cc:212-257 | a ciphertext is decrypted to p exactly when it is the encryption of the nonempty p |
| Encryptor.Key.DeriveFromPassword | src/base/encryptor.cc:124-153 | when it succeeds, the key is the derived bytes and the IV the given one or zero; when not, nothing changes |
| Encryptor.EncryptArray | src/base/encryptor.cc:183-210 | rejects an unavailable key, a missing buffer and an empty one; else the buffer holds the encryption and the size is updated |
| Encryptor.DecryptArray | src/base/encryptor.cc:212-257 | rejects sizes that are no multiple of the block and damaged padding; else the buffer starts with the plaintext and the size is its length |
| Encryptor.EncryptString | src/base/encryptor.cc:155-167 | the string becomes its encryption, or the call is refused |
| Encryptor.DecryptString | src/base/encryptor.cc:169-181 | the string becomes its decryption; when the call is refused it holds the transformed blocks if there was a key and the size was right, and is unchanged if not |
| Encryptor.StripPadding | src/base/encryptor.cc:236-255 | the in-place checks of the last bytes accept exactly the padded buffers, and give the size of the plaintext |
| Encryptor.EncryptThenDecrypt | src/base/encryptor.cc:155-181 | both calls in turn leave every nonempty string as it was |
| NumberParser.AddAndCheckOverflow | src/base/number_util.cc:537-545 | succeeds exactly when the sum is below 2^64, and then is exact |
| NumberParser.MultiplyAndCheckOverflow | src/base/number_util.cc:549-557 | succeeds exactly when the product is below 2^64, and then is exact |
| NumberParser.ReduceLeadingNumbersAsBase10System | src/base/number_util.cc:614-629 | consumes the leading run of digits and gives its value, or fails when that is not below 2^64 |
| NumberParser.InterpretNumbersAsBase10System | src/base/number_util.cc:635-642 | succeeds exactly on lists of digits with a value below 2^64 |
| NumberParser.ReduceDigitsHelper | src/base/number_util.cc:674-725 | does one reduction step and never moves the iterator back |
| NumberParser.ReduceNumberLessThan10000 | src/base/number_util.cc:750-777 | gives a number below 10000 and strictly advances when it accepts; never moves back or past the end |
| NumberParser.ReduceGroupBounds | src/base/number_util.cc:750-777 | an accepted group is below 10000, leaves a shorter rest, and stops at the end or before a token of at least 10000 |
| GroupReader.GroupIsRead | src/base/number_util.cc:674-777 | for every list of tokens the steps over thousands, hundreds, tens and ones accept what one pass with a falling limit accepts, with the same value, and leave the same tokens |
| NumberParser.JapaneseStep | src/base/number_util.cc:783-808 | the sum over strictly decreasing scales, one coefficient at a time |
| NumberParser.RestIsDropped | src/base/number_util.cc:693-703 | a digit run behind a thousand that is worth a thousand or more, or stands before a rank, is dropped with all that follows, and the list is accepted |
| DroppedTokens.GroupIsExact | src/base/number_util.cc:674-777 | an accepted group is worth its tokens, up to the next scale, exactly when none of the three steps jumps; a jump takes all tokens and the group is worth less |
| DroppedTokens.JapaneseIsExact | src/base/number_util.cc:783-808 | the sum over the scales is the worth of the whole list exactly when no group jumps, and less when one does |
| DroppedTokens.ValueIsExact | src/base/number_util.cc:812-824 | the number of an accepted list is the worth of its tokens exactly when nothing is left out, and never more |
| DroppedTokens.DigitsNeverDrop | src/base/number_util.cc:614-642 | for a list of digits the Japanese reading, when it accepts, agrees with base 10 |
| DroppedTokens.DroppedTwelveTens | src/base/number_util.cc:693-703 | the tokens 1000, 1, 2, 10 are worth 1120 and read as 1000 |
| NumberParser.InterpretNumbersInJapaneseWay | src/base/number_util.cc:783-808 | succeeds exactly when every group is accepted, the scales strictly decrease and the unbounded sum is below 2^64, and gives that sum |
| NumberParser.NormalizeNumbersHelper | src/base/number_util.cc:812-824 | digit lists are read in base 10, all others in the Japanese way, never with a wrapped value |
| NumberPrinter.ArabicToKanji | src/base/number_util.cc:201-323 | when it succeeds and what it appends, with the descriptions and styles, for every input string |
| PrintedStyles.FormsInOrder | src/base/number_util.cc:245-320 | which styles the appended forms have, in which order and how many there are; all but the further forms of the old style are the texts of their styles |
| PrintedStyles.FullIsWidened | src/base/number_util.cc:66-69 | each text of the full-width style is that of the half-width style with every digit moved to U+FF10 and up |
| PrintedStyles.OldIsModern | src/base/number_util.cc:62-77 | each text of the old style is that of the Kanji style in the old characters, where no one stands before a rank |
| PrintedStyles.Descriptions | src/base/number_util.cc:185-194 | the descriptions of the styles |
| PrintedStyles.TwentyChanges | src/base/number_util.cc:304-310 | the form with the character for twenty is another text exactly when there is something to replace |
| NumberNormalizer.NormalizeNumbersInternal | src/base/number_util.cc:827-896 | acceptance and the contents of all three outputs, also after a rejection, for every input string; what the outputs mean is in the rows of NumberOutputs |
| NumberOutputs.KanjiKeepsToken | src/base/number_util.cc:862-870 | a nonzero digit of either width becomes the Kanji that stands for the same number, a zero becomes 〇, and every other character stays |
| NumberOutputs.KanjiOutputIsRead | src/base/number_util.cc:827-896 | for an input without zero digits, normalizing the Kanji output gives the outputs of the input |
| NumberOutputs.ZeroOutputIsNotRead | src/base/number_util.cc:862-870 | with a zero digit the Kanji output is not read |
| NumberOutputs.DigitsAreKept | src/base/number_util.cc:883-895 | of digits in any mixture of widths and Kanji the decimal output is these digits, with or without their leading zeros |
| NumberOutputs.SuffixIsApart | src/base/number_util.cc:836-858 | a suffix changes nothing of the other outputs, and is refused when there may be none or when it holds a number |
| NumberOutputs.DigitRow | src/data/preedit/kanjinumber-arabicnumber.tsv:1-37 | the characters for the digits |
| NumberOutputs.RankRow | src/data/preedit/kanjinumber-arabicnumber.tsv:11-40 | the characters for one to three in the old style, and for ten, hundred and thousand |
| NumberOutputs.TensRow | src/data/preedit/kanjinumber-arabicnumber.tsv:41-44 | the single characters for ten to forty |
| NumberOutputs.ScaleRow | src/data/preedit/kanjinumber-arabicnumber.tsv:14-17 | the characters for the scales |
| NumberRoundTrip.KanjiGroup | src/base/number_util.cc:674-777 | the tokens of a printed segment are accepted as the number of its four digits |
| NumberRoundTrip.ArabicGroup | src/base/number_util.cc:674-777 | the digits of a segment in a mixed form are accepted as its number |
| NumberRoundTrip.TextHasItsValue | src/base/number_util.cc:783-824 | the tokens of a whole printed text are worth the printed number |
| NumberRoundTrip.SegmentsHaveTheValue | src/base/number_util.cc:228-243 | the segments of four digits are worth the digit string |
| NumberRoundTrip.DecimalIsCanonical | src/base/number_util.cc:883-895 | the decimal output of a number is its digit string without leading zeros |
| NumberRoundTrip.PrintedIsReadBack | src/base/number_util.cc:201-323 | printed in the Kanji or a mixed form and normalized, a number of at most 20 digits gives its own digits when it is below 2^64 and is rejected otherwise |
| NumberRoundTrip.EveryFormIsReadBack | src/base/number_util.cc:245-320 | the same for every form that ArabicToKanji appends in these styles |
| OldKanjiRoundTrip.OldStyleIsReadBack | src/base/number_util.cc:245-320 | the text of the old style, with or without the character for twenty, is read back exactly for the numbers below 2^64 with no thousands digit, nothing in the segment of ten thousand and no one before a rank |
| OldKanjiRoundTrip.EveryOldFormIsReadBack | src/base/number_util.cc:245-320 | of all forms that ArabicToKanji appends in the old style exactly those, the single character for ten and that for zero are read back |
| OldKanjiRoundTrip.OldTextIsRejected | src/base/number_util.cc:711-716 | a one before hundred or ten makes the parser reject the whole text |
| OldKanjiRoundTrip.TextIsUnknown | src/base/number_util.cc:75-77 | a thousands digit or a segment of ten thousand puts a character into the text that the parser's table lacks |
| OldKanjiRoundTrip.TenIsRejected | src/base/number_util.cc:711-716 | the old style of 10 is not read back, its single character is |
| SplitCsv.FindComma | src/base/util.cc:243-247 | finds the first comma of the unchanged part of the buffer |
| SplitCsv.CopyQuoted | src/base/util.cc:233-242 | the in-place copy gives the text of a quoted field; the write cursor never passes the read cursor and the terminator stays |
| SplitCsv.SplitCSV | src/base/util.cc:217-258 | the output is the fields of the line, for every byte string |
| CsvRoundTrip.QuotedOfDoubled | src/base/util.cc:232-242 | a field with doubled quotes between quotes is read as its text, whatever follows |
| CsvRoundTrip.SplitOfLine | src/base/util.cc:217-258 | the fields read from any line of quoted and plain fields, with any blanks in front of each field and anything but a comma behind a closing quote |
| CsvRoundTrip.BlankInFront | src/base/util.cc:227-229 | a space or a tab in front of a line changes nothing |
| CsvRoundTrip.OpenQuote | src/base/util.cc:231-254 | behind a quote that is not closed everything to the end is one field |
| CsvRoundTrip.Recovered | src/base/util.cc:248-254 | a list of fields is recovered exactly when its last field is not an empty plain one that is alone or behind a closing quote |
| CsvRoundTrip.FullyQuotedIsRecovered | src/base/util.cc:217-258 | any list of byte strings is recovered from its fully quoted line (RFC 4180 section 2) |
| Utf8.ReadsStandard | src/base/util.cc:377-465 | the encoding of every codepoint below 2^31 is read as that codepoint, whatever follows |
| Utf8.OnlyStandardIsRead | src/base/util.cc:377-465 | nothing else is read: whatever is accepted is the one standard, shortest encoding of the result |
| Utf8Table.StandardIsRow | src/base/util.cc:377-581 | the encoding is, bit by bit, the row of the table of RFC 2279 section 2 that is the first to have room |
| Utf8Table.LengthByFirst | src/base/strings/internal/utf8_internal.h:128-130 | the table of lengths has n for exactly the bytes that characters of n bytes begin with, for n above 1 |
| Utf8Strings.OnlyStandardIsReadLast | src/base/util.cc:467-503 | the same from the end of a string |
| Utf8Strings.ReadsStandardLast | src/base/util.cc:467-503 | the last codepoint is read, whatever comes before it |
| Utf8Strings.FlatOfForward | src/base/util.cc:347-354 | reading stops behind a run of standard encodings, and at the end exactly for a valid string |
| Utf8Strings.ForwardOfFlat | src/base/util.cc:347-354 | every list of codepoints below 2^31 is read from its standard encoding |
| Utf8Strings.BackwardIsReverse | src/base/util.cc:62-97 | for every valid string the reverse iteration gives the reverse of the forward iteration |
| Utf8Strings.ValidBothWays | src/base/util.cc:377-515 | a string is valid read from the front exactly when it can be taken apart from its end |
| Utf8Encoder.EncodedIsReadBack | src/base/util.cc:530-581 | SplitFirstChar32 on an encoded codepoint and any tail returns both exactly for the codepoints below 2^26, from 2^27 on and below 2^31, but 0 |
| Utf8Encoder.OthersAreClipped | src/base/util.cc:530-581 | every other codepoint but 0 is read without its high bits, or not at all when what is left has a shorter form |
| Utf8Encoder.StringRoundTrip | src/base/util.cc:347-362 | Utf32ToUtf8 of Utf8ToUtf32 is the string exactly when it is valid and its codepoints are faithful |
| Utf8Encoder.CodepointRoundTrip | src/base/util.cc:347-362 | Utf8ToUtf32 of Utf32ToUtf8 is the list exactly when all its codepoints are faithful |
| Utf8Iterators.SplitFirstChar32 | src/base/util.cc:377-465 | the result, codepoint and rest for every byte string |
| Utf8Iterators.SplitLastChar32 | src/base/util.cc:467-503 | the result, the rest and the codepoint that is stored, also by a refused call, for every byte string |
| Utf8Iterators.IsValidUtf8 | src/base/util.cc:505-515 | accepts exactly the valid strings |
| Utf8Iterators.ConstChar32Iterator.constructor | src/base/util.cc:62-65 | all codepoints are still to come |
| Utf8Iterators.ConstChar32Iterator.Next | src/base/util.cc:72-76 | exactly the current codepoint is gone |
| Utf8Iterators.ConstChar32ReverseIterator.constructor | src/base/util.cc:80-84 | all codepoints are still to come, from the end |
| Utf8Iterators.ConstChar32ReverseIterator.Next | src/base/util.cc:91-95 | exactly the current codepoint is gone |
| Utf8Iterators.CollectForward | src/base/util.h:262-285 | the loop over the iterator meets the codepoints in order |
| Utf8Iterators.CollectBackward | src/base/util.h:287-310 | the loop over the reverse iterator meets what can be read from the end |
| Utf8Iterators.CodepointToUtf8 | src/base/util.cc:530-581 | the shifts and masks write the encoding and a terminating zero into the buffer |
| Utf8Iterators.Utf8ToUtf32 | src/base/util.cc:347-354 | all codepoints up to the first that cannot be read |
| Utf8Iterators.Utf32ToUtf8 | src/base/util.cc:356-362 | the encodings one after the other; read back exactly for faithful codepoints |
| Graphemes.SplitToChars | src/base/util.cc:102-118 | the table-driven loop cuts the text at the table's lengths |
| Graphemes.ValidIsChunkable | src/base/util.cc:102-118 | in a valid text no cut runs over the end |
| Graphemes.SplitStringToUtf8Graphemes | src/base/util.cc:136-215 | the graphemes are the merged characters, and put together they are the text |
| Graphemes.MergeGraphemes | src/base/util.cc:136-215 | the loop merges each character that joins into the one before it |
| Graphemes.NothingIsLost | src/base/util.cc:136-215 | merging moves boundaries only |
| Graphemes.CountIsBreaks | src/base/util.cc:190-212 | there is one grapheme for each character that is not appended to another |
| Graphemes.FlagsArePairs | src/base/util.cc:175-197 | in every run of regional indicators exactly each second one joins, and the first one only behind a joiner |
| GraphemeBreaks.ClassOfChunk | src/base/util.cc:153-190 | the classes of characters by their bytes, for every piece of a text |
| GraphemeBreaks.JoinsByBytes | src/base/util.cc:150-212 | two neighbouring characters stay together exactly when the second is a mark by its bytes, one of them is the joiner, the second is a keycap behind its selector, or the second completes a flag |
| GraphemeBreaks.ChunksAreWhole | src/base/util.cc:102-118 | the pieces of every text are whole characters or cannot be read |
| GraphemeBreaks.CharactersAreChunks | src/base/util.cc:102-118 | the pieces of a text of Unicode characters are its characters one by one |
| RecursiveMutex.MutualExclusion | src/base/thread.h:348-406 | in every interleaving at most one thread has open lock calls; it holds the inner mutex, and the depth is their number |
| RecursiveMutex.OwnerHoldsMutex | src/base/thread.h:370-386 | the stored owner is 0 or the holder of the inner mutex |
| RecursiveMutex.LoadIsExact | src/base/thread.h:356-365 | whatever value the relaxed load may return, it is the thread's own id exactly when the thread holds the mutex |
| RecursiveMutex.DepthIsGuarded | src/base/thread.h:348-406 | the depth is accessed by the holder of the inner mutex only |
| RecursiveMutex.DepthIsZeroOnAcquire | src/base/thread.h:367-372 | the assertion of lock about the depth |
| RecursiveMutex.ReleasedByOutermostUnlock | src/base/thread.h:375-388 | the inner mutex is released only by the unlock that closes the outermost call |
| RecursiveMutex.InnerUnlockKeepsMutex | src/base/thread.h:375-388 | an unlock goes on to release exactly when it closes the only open call |
| RecursiveMutex.NoSelfDeadlock | src/base/thread.h:356-367 | a thread never waits for the mutex that it holds |
| RecursiveMutex.QuietIsClean | src/base/thread.h:350-354 | the assertions of the destructor |
| RecursiveMutex.CallsEnd | src/base/thread.h:356-388 | every action of a thread inside a call brings the call nearer to its end |
| RecursiveMutex.CallsCanBegin | src/base/thread.h:356-388 | outside of a call a thread may call lock, and unlock exactly when it holds the mutex |
| RecursiveMutex.NoDeadlock | src/base/thread.h:356-388 | a thread inside a call can go on, or it waits for another thread that can, or that has an open lock call to close |
| RecursiveMutex.RefinesAtomicMutex | src/base/thread.h:348-406 | the calls of every run, where they take effect, are a run of a recursive mutex with atomic calls |
| TaskManager.BodiesNeverOverlap | src/base/thread.h:267-290 | a running body is that of the last scheduled task, and all others have ended |
| TaskManager.TasksAreSerial | src/base/thread.h:267-290 | bodies start and end one after the other in the order of the Schedule calls, once each |
| TaskManager.WaitMeansFinished | src/base/thread.h:281-285 | when Wait releases its lock every scheduled task has ended and its thread and memory are gone |
| TaskManager.DestructorFinishes | src/base/thread.h:71-75 | the same when the destructor is done, without a wait |
| TaskManager.NotRunningMeansFinished | src/base/thread.h:276-279 | IsRunning answers no only when every scheduled body has ended |
| TaskManager.IsRunningIsExact | src/base/thread.h:276-279 | the answer is yes exactly when a future made so far has not been notified |
| TaskManager.ScheduleMeansStarted | src/base/thread.h:269-274 | when Schedule releases its lock the new future is there and its thread has been started |
| TaskManager.NoUseAfterFree | src/base/thread.h:81-87 | no caller and no background thread touches a notification that has been freed |
| TaskManager.OnlyOneIsLive | src/base/thread.h:249-256 | a notification is freed before the next one is made |
| TaskManager.NoDeadlock | src/base/thread.h:239-290 | the caller inside can go on, or the thread that it waits for can |
| ProcessMutex.AtMostOneOwner | src/base/process_mutex.cc:174-236 | at most one object has the lock of a file name |
| ProcessMutex.AtMostOneLocked | src/base/process_mutex.cc:80-100 | locked_ is seen to be true for at most one object of a file name |
| ProcessMutex.OwnerHasKernelLock | src/base/process_mutex.cc:176-211 | an object that has the lock has the kernel's lock, over the only open descriptor of the file |
| ProcessMutex.NoSecondDescriptor | src/base/process_mutex.cc:174-224 | while a file name is in the table no descriptor is opened or closed for it, and the kernel lock stays |
| ProcessMutex.OnlyOwnerReleases | src/base/process_mutex.cc:213-224 | an entry goes away only by the object that made it; a failed Lock and what follows it release nothing |
| ProcessMutex.ExtractionUnlocks | src/base/process_mutex.cc:213-224 | the release comes from an object that has the lock and leaves it without |
| ProcessMutex.CallEnds | src/base/process_mutex.cc:80-100 | for every way in which a Lock or UnLock is decided and whatever others do until it returns: locked_ and the returned value, and the object has the entry of its file name exactly when it is locked |
| ProcessMutex.MessageIsWritten | src/base/process_mutex.cc:245-262 | a Lock with a message leaves the object locked only when the message has been written |
| ProcessMutex.LockPersists | src/base/process_mutex.cc:80-100 | over any run, whatever others do, the lock is kept until its owner releases it |
| ProcessMutex.NoDeadlock | src/base/process_mutex.cc:80-236 | a thread inside a call can go on, or the holder of the manager's mutex can |
| Sha1Padding.CountIsExact | src/base/unverified_sha1.cc:175-187 | the block count is that of the padded message exactly when the sum does not wrap around |
| Sha1Padding.PaddedIsPadding | src/base/unverified_sha1.cc:121-169 | below 2^61 bytes the padded message is the padding of FIPS 180-4 section 5.1.1 and the only one |
| Sha1Padding.PaddingIsInjective | src/base/unverified_sha1.cc:121-169 | different messages have different paddings |
| Sha1Padding.PaddedMessageIterator.constructor | src/base/unverified_sha1.cc:114-117 | the count is the one that wraps around, for every size; below the wrap-around the whole padded message is still to come |
| Sha1Padding.PaddedMessageIterator.HasMessage | src/base/unverified_sha1.cc:119 | there is a block exactly while something is still to come |
| Sha1Padding.PaddedMessageIterator.FillNextMessage | src/base/unverified_sha1.cc:121-169 | fills the buffer with the next 64 bytes of the padded message |
| Sha1Padding.PaddedMessageIterator.MoveNext | src/base/unverified_sha1.cc:171 | exactly one block is gone |
| Sha1Padding.MakeDigest | src/base/unverified_sha1.cc:194-240 | folds the compression function over the blocks of the padded message, in order |
| CodegenByteArrayStream.StreamBuf.WriteBytes | src/base/codegen_bytearray_stream.cc:134-145 | writes the list elements at their positions, twenty on a line |
| CodegenByteArrayStream.StreamBuf.Overflow | src/base/codegen_bytearray_stream.cc:113-131 | writes the buffer and then the byte, in this order, and empties the buffer; refuses when no variable is open |
| CodegenByteArrayStream.StreamBuf.Sputc | src/base/codegen_bytearray_stream.cc:113-131 | the unbuffered stream has one byte more |
| CodegenByteArrayStream.StreamBuf.Xsputn | src/base/codegen_bytearray_stream.cc:99-110 | the unbuffered stream has these bytes more, whether they fit or not |
| CodegenByteArrayStream.StreamBuf.Sync | src/base/codegen_bytearray_stream.cc:90-95 | the unbuffered stream is unchanged |
| CodegenByteArrayStream.StreamBuf.OpenVarDef | src/base/codegen_bytearray_stream.cc:61-71 | writes the header and resets the count, or refuses |
| CodegenByteArrayStream.StreamBuf.CloseVarDef | src/base/codegen_bytearray_stream.cc:74-87 | writes what is buffered and the footer with the number of bytes, and leaves the buffer empty |
| CodegenByteArrayStream.Define | src/base/codegen_bytearray_stream.cc:61-145 | for any size of the buffer and any mix of puts, bulk writes and flushes the sink has the definition of the bytes, behind those that were buffered before, and the buffer is empty |
| CodegenByteArrayStream.ParsedBack | src/base/codegen_bytearray_stream.cc:74-145 | the definition is parsed back to the bytes, in order and once each, and their number |
| CodegenByteArrayStream.ElementAt | src/base/codegen_bytearray_stream.cc:134-145 | element i is six characters from position 6i on, two hexadecimal digits among them, with a new line for each twentieth |
| Utf8Decoder.TruncatedIsBeginning | src/base/strings/internal/utf8_internal.cc:101-121 | an ill-formed part of more than one byte is the beginning of a character |
| Utf8Decoder.ScalarIsShortest | src/base/strings/internal/utf8_internal.cc:48-72 | a character is a scalar value in its shortest form |
| Utf8Decoder.DecodedPrefix | src/base/strings/internal/utf8_internal.cc:192-225 | a character is decoded in the same way whatever follows |
| Utf8Decoder.TooShort | src/base/strings/internal/utf8_internal.cc:101-121 | the length of the ill-formed end of a text |
| Utf8Decoder.DecodeSequence | src/base/strings/internal/utf8_internal.cc:125-149 | the scalar value of a well-formed sequence, or the length of the ill-formed part |
| Utf8Decoder.Decode | src/base/strings/internal/utf8_internal.cc:192-225 | decodes exactly the characters of Table 3-7 of the Unicode Standard, with their scalar values |
| TextSanitizer.CleanTexts | src/base/text_normalizer.cc:240-252 | the test accepts exactly the well-formed texts without control characters |
| TextSanitizer.SanitizedIsSound | src/base/text_normalizer.cc:238-267 | the output is well-formed, has no control characters, at most max_bytes bytes, and its characters are characters of the input in their order |
| TextSanitizer.SanitizedIsComplete | src/base/text_normalizer.cc:238-267 | the pieces of the output are exactly the well-formed pieces of the cut input that are no control characters |
| TextSanitizer.CleanIsCut | src/base/text_normalizer.cc:258-260 | a text with nothing to leave out becomes its longest prefix of whole characters that fits |
| TextSanitizer.SanitizedTwice | src/base/text_normalizer.cc:238-267 | sanitizing the output again returns nullopt |
| TextSanitizer.NoneMeansUnchanged | src/base/text_normalizer.cc:238-267 | nullopt is returned exactly when the input is its own sanitized form |
| TextSanitizer.IsValidText | src/base/text_normalizer.cc:240-250 | the lambda's iteration decides the test |
| TextSanitizer.SanitizeText | src/base/text_normalizer.cc:238-267 | the result for every input, with all of these properties |
| CivilDays.DayNumbersCount | src/base/date_util.cc:172-173 | day numbers count the days of the proleptic Gregorian calendar one by one |
| CivilDays.InWindow | src/base/date_util.cc:168-188 | a date that is found is from 90 days before to 275 days after today |
| CivilDays.WindowIsTight | src/base/date_util.cc:168-188 | both ends are reached |
| CivilDays.EveryYearResolves | src/base/date_util.cc:168-188 | a month and day that exist in all years are always found |
| CivilDays.Resolves | src/base/date_util.cc:168-188 | a date is found exactly when it occurs in the window, but for one day before a leap year |
| CivilDays.BlindSpot | src/base/date_util.cc:168-188 | the exception, with its dates |
| TrailingDate.ConsumeTrailingDigits | src/base/date_util.cc:48-57 | splits off the longest run of digits at the end |
| TrailingDate.Scan | src/base/date_util.cc:93-156 | finds the numerals of a date at the end of the text, in either style |
| TrailingDate.ScannedIsMatch | src/base/date_util.cc:93-156 | the numerals found are those of the grammar: exactly one date for every text that ends with one, none for all others |
| TrailingDate.DateIsRead | src/base/date_util.cc:61-188 | a written date is read from behind any text that it may follow |
| TrailingDate.ExplicitDateIsReadBack | src/base/date_util.cc:162-188 | every day of 1900 to 2100, written with its year, is read back |
| TrailingDate.ReadDateIsInWindow | src/base/date_util.cc:168-188 | whatever is read without a year is in the window |
| DateTexts.Separators | src/base/date_util.cc:86-88 | the separators decode to U+65E5, U+6708 and U+5E74, and to the slash and the full stop |
| DateTexts.DateWithYearIsRead | src/base/date_util.cc:86-166 | a day, a month and a year in numerals, written in either style behind anything they may follow, are read as this day exactly when it exists and its year is of 1900 to 2100 |
| DateTexts.DateWithoutYearIsRead | src/base/date_util.cc:86-188 | the same without a year, with the day near today |
| DateTexts.NoDateBehind | src/base/date_util.cc:140-156 | behind a full stop, and with a year behind a slash, there is no date with slashes |
| TrailingDate.BoundSuffix | src/base/date_util.cc:70-78 | at most 64 bytes are looked at, from the first byte of a character on |
| TrailingDate.ParseTrailingDate | src/base/date_util.cc:61-188 | the day at the end of the cut and converted text, or none |
| DoubleArray.LookupDoubleArray | src/base/strings/internal/double_array.cc:53-82 | finds the longest nonempty key that the text starts with, and its value, in any double array |
| DoubleArray.ConvertUsingDoubleArray | src/base/strings/internal/double_array.cc:91-111 | for any double array and character table that encode a set of rules: the text with the longest keys replaced from the front on, with their rewind offsets, and copied by characters between them |
| FullWidthAscii.IndexIsRow | src/base/strings/internal/japanese_rules.cc:1602-1739 | the shipped double array holds exactly the keys of the rules, with their places in the character table |
| FullWidthAscii.Encoded | src/base/strings/internal/japanese_rules.cc:1585-1739 | the shipped tables encode the 95 rules |
| FullWidthAscii.RulesByCharacter | src/base/strings/internal/japanese_rules.cc:1585-1601 | exactly the full-width forms U+FF01 to U+FF5D but four, and six other characters, have a rule, with the ASCII character they become |
| FullWidthAscii.FullWidthAsciiToHalfWidthAscii | src/base/strings/japanese.cc:65-69 | the text with every key of the rules replaced |
| FullWidthAscii.Step | src/base/strings/internal/double_array.cc:91-111 | with these rules every step takes the bytes that the first byte announces, whether they are a key or not |
| FullWidthAscii.ConvertedBehind | src/base/strings/internal/double_array.cc:91-111 | the conversion starts anew behind every text that its steps do not run over |
| DateCut.CutChangesNothing | src/base/date_util.cc:61-81 | before the conversion, the date at the end of the last 64 bytes is the date at the end of the text, for every text |
| DateCut.CutBeforeConversion | src/base/date_util.cc:61-84 | the same when the cut text is converted, if no step of the conversion runs over the end of what is cut off |
| DateCut.DateInTextIsRead | src/base/date_util.cc:61-188 | under the same condition a date at the end of the converted text, however long, is what the method returns |
| DateCut.WellFormedIsWhole | src/base/date_util.cc:66-69 | the condition holds for every well-formed text |
| DateCut.CutIsSafe | src/base/date_util.cc:66-84 | on any day, a text can be cut off in front of everything without a change exactly when the condition holds for it |
| DateCut.LostDate | src/base/date_util.cc:70-84 | a text of 65 bytes whose date is not found because of the cut |

## Left out

- Encryptor.Key.DeriveFromPassword: the 40 bytes that the source derives from password and salt are a parameter, because they come from the SHA-1 compression function.
- Exclusive or of bytes is the function `Gf256.Plus`, so that the algebra does not go through bits.
- The wrap-around of GetEncryptedSize for buffers of nearly 2^64 bytes, and a null pointer for the size.
- ProtectData, UnprotectData and the password storage of `encryptor.cc`, with their platform branches.
- NumberRoundTrip.PrintedIsReadBack: covers the Kanji and mixed styles; the old style has its own exact condition in `OldKanjiRoundTrip.OldStyleIsReadBack`.
- Strings of `number_util.cc` are sequences of characters, one for each UTF-8 chunk; ContainsScriptType on the suffix is a parameter, and KanjiNumberToArabicNumber is the table of `src/data/preedit/kanjinumber-arabicnumber.tsv`.
- The other number styles, radices and separators of `number_util.cc`.
- Graphemes.SplitToChars: requires that no character runs over the end of the text, which holds for every valid one and which the source asserts in debug builds.
- Script types, brackets, URLs and the other members of `util.cc`.
- RecursiveMutex.RefinesAtomicMutex: the depth is an unbounded integer, thread ids are distinct and not 0, and every unlock has its lock, as the annotations of the class demand.
- The three concurrent components are machines over values and not classes, because their methods run interleaved: each method is split into its accesses to shared memory, and sequential use of one object is the special case of a single thread.
- `BackgroundFuture` with a value, and a task that throws.
- TaskManager.NoDeadlock: a task's body does not call the manager; one that calls Schedule, Wait or IsRunning while a caller inside waits for it would wait for that caller.
- ProcessMutex.LockPersists: names are changed only while the object is unlocked and not in use; other processes, the unlinking of the file after the close, file permissions and the contents of the lock file are not part of this model.
- The Windows branches of `process_mutex.cc`.
- Sha1Padding.MakeDigest: the compression function, the initial value and the byte order of the digest are parameters, and the size is below the wrap-around of the block count.
- CodegenByteArrayStream.StreamBuf.Overflow: the sink never fails, so the result is eof only when no variable is open.
- CodegenByteArrayStream.StreamBuf.Sync: the sink never fails.
- CodegenByteArrayStream.StreamBuf.OpenVarDef: the sink never fails.
- CodegenByteArrayStream.StreamBuf.CloseVarDef: the sink never fails.
- CodegenByteArrayStream.Define: the error flags of the surrounding std::ostream are not modelled.
- Encode of `strings/internal`, and the normalizing functions of `text_normalizer.cc` other than SanitizeText.
- TrailingDate.ParseTrailingDate: today's date is a parameter.
- DateCut.CutIsSafe: quantifies over what may follow; that one text with a step over the cut keeps its date, by chance, is not characterised.
- The other rule tables of `strings/internal/japanese_rules.cc`, and AlignUsingDoubleArray.
- The weekday of a date and its Japanese names.
