# QR Code bitstream encoder: first steps

This project is a Dafny model of the start of a QR Code encoder (`qrcode.py`). It covers the two constant tables that section 7.4 of ISO/IEC 18004:2015 defines for data encoding:

- the value of each of the 45 alphanumeric-mode characters;
- the 4-bit mode indicators of the four data modes (numeric, alphanumeric, byte, kanji).

It also covers the `QRCode` object. That object holds the text, the mode name and the symbol version, and it builds the bitstream as an append-only list of digit strings (`_string`). Three operations act on it:

- `set_mode` appends the mode indicator.
- `character_count` appends the character-count indicator. This happens only in alphanumeric mode at versions 1 to 9. The field is the length of the text in binary, zero-padded on the left to 9 digits.
- `alpha_conversion`, in alphanumeric mode only, walks the text two characters at a time and does nothing yet. In any other mode it returns at once.

Modules:

- `Wrappers` (`wrappers.dfy`) holds `Option`. It is the result of a dictionary lookup that may miss, as with Python's `dict.get`.
- `Binary` (`binary.dfy`) defines binary digit strings. `ToBinary` is a self-written equivalent of Python's `format(n, 'b')`. `PadLeft` is the `'0' * (w - len(s)) + s` idiom. `ParseBinary` reads digits back as a number. The lemmas give round trips in both directions, show that padding preserves the value, and bound the digit count.
- `Tables` (`tables.dfy`) holds `ALPHANUMERIC_TABLE` and `MODE_INDICATOR_TABLE` as constant maps. `ModeIndicator` is the lookup. The lemmas prove the tables' structure.
- `QrCode` (`qrcode.dfy`) holds the `QRCode` class and `CountIndicator`, the pure function that computes the count field. It also holds `Demo`, the demonstration sequence at the end of the file.

Modelling choices:

- The list field `_string` becomes `pieces: seq<Option<string>>`. An entry is `None` where `set_mode` looked up a mode the table lacks, since Python's `dict.get` returns `None` there.
- The mode is a free `string` and the version an `int`, because the source leaves both untyped.
- `ALPHANUMERIC_TABLE` is one dictionary literal. Here it is the union of three map displays: digits, letters and symbols. These have disjoint keys and together give exactly the 45 pairs of the literal. The split keeps each display small enough for the verifier to reason about.
- Python's `'0' * k` is empty for negative `k`. So `PadLeft` keeps a longer digit string whole, and a count of 512 or more yields a field longer than 9 digits. The code does this. The standard's fixed 9-bit field is not enforced by the code, and the model follows the code.

## Model

| member | source | states |
|---|---|---|
| Binary.ToBinary | qrcode.py:75 | `format(n, 'b')`: a string of '0'/'1' only, `BitLength(n)` digits long, equal to "0" exactly when n is 0, and starting with '1' otherwise (no leading zeros) |
| Binary.ParseToBinary | qrcode.py:75 | reading back the digits `ToBinary` writes for n gives n |
| Binary.ToBinaryParse | qrcode.py:75 | the converse: any digit string that starts with '1' is exactly what `ToBinary` writes for its value |
| Binary.BitLengthBounds | qrcode.py:75 | the digit count k of n satisfies n < 2^k and, for n >= 1, 2^(k-1) <= n |
| Binary.BitLengthAtMost | qrcode.py:75-76 | for k >= 1, n needs at most k digits if and only if n < 2^k |
| Binary.PadLeft | qrcode.py:76 | `'0' * (w - len(s)) + s` has length max(w, len(s)), ends with s, and is all '0' before s |
| Binary.PadLeftParse | qrcode.py:76 | zero-padding a digit string keeps it a digit string with the same value |
| Binary.ParseIgnoresLeadingZeros | qrcode.py:76 | any number of leading zeros leaves the value of a digit string unchanged |
| QrCode.CountIndicator | qrcode.py:75-76 | the count field is a '0'/'1' string of length max(9, digit count of the count) that reads back as the count, and it is exactly 9 long if and only if the count is below 512 |
| Tables.ModeIndicator | qrcode.py:51-56 | `MODE_INDICATOR_TABLE.get(mode)` finds a value exactly for the four table modes, and every value it finds is 4 binary digits with exactly one '1' |
| Tables.ModeIndicatorsOneHot | qrcode.py:51-56 | every mode indicator is four '0'/'1' characters with exactly one '1' |
| Tables.ModeIndicatorsDistinct | qrcode.py:51-56 | the table has four modes, and no two modes share an indicator |
| Tables.DigitEntriesShape | qrcode.py:4-13 | the digit entries have exactly the keys '0'..'9', and each digit is worth its numeric value |
| Tables.LetterEntriesShape | qrcode.py:14-39 | the letter entries have exactly the keys 'A'..'Z', worth 10..35 in alphabetical order |
| Tables.SymbolEntriesShape | qrcode.py:40-48 | the symbol entries have exactly the nine keys ` $%*+-./:`, worth 36..44 in that order, and none of them is a digit or a letter |
| Tables.DigitValues | qrcode.py:4-13 | in the whole table, every digit is a key worth its numeric value |
| Tables.LetterValues | qrcode.py:14-39 | in the whole table, every capital letter is a key worth 10 plus its alphabet position |
| Tables.SymbolValues | qrcode.py:40-48 | in the whole table, the k-th symbol of ` $%*+-./:` is a key worth 36 + k |
| Tables.AlphanumericKeys | qrcode.py:3-49 | a character is a key if and only if it is a digit, a capital letter or one of the nine symbols |
| Tables.CharsetMatchesTable | qrcode.py:3-49 | the ordered 45-character set and the table agree: position i holds the character worth i, and every key is in the set |
| Tables.AlphanumericInjective | qrcode.py:3-49 | no two characters share a value |
| Tables.AlphanumericValueRange | qrcode.py:3-49 | the values used are exactly 0..44 |
| Tables.AlphanumericKeyCount | qrcode.py:3-49 | the table has exactly 45 keys |
| QrCode.QRCode.constructor | qrcode.py:60-64 | a new encoder stores data, mode and version unchanged and starts with an empty bitstream |
| QrCode.QRCode.SetMode | qrcode.py:66-67 | appends exactly one entry and keeps every earlier entry. The entry is the table's indicator for the mode, or `None` for a mode the table lacks. Every entry stays absent or a digit string |
| QrCode.QRCode.CharacterCount | qrcode.py:69-76 | at versions 1..9 in alphanumeric mode, appends exactly one entry, `CountIndicator(len(data))`, and keeps the earlier entries. For any other version or mode, the bitstream is unchanged |
| QrCode.QRCode.AlphaConversion | qrcode.py:79-85 | changes no field of the object, whatever the mode and data |
| QrCode.Demo | qrcode.py:89-91 | constructing for ("HELLO", "Alphanumeric", 1), then `set_mode`, then `character_count`, leaves the bitstream `['0010', '000000101']` |

## Left out

- The `print` of the final bitstream (qrcode.py:92) is console output. `Demo` returns the bitstream instead.
- Python's `format(n, 'b')` is a library call. `Binary.ToBinary` is a self-written replacement, and the lemmas state what it computes.
- The alphanumeric payload encoding (11-bit pairs, 6-bit trailing character) is not modelled. `alpha_conversion` has an empty loop body, so the code does not encode anything.
- The terminator, bit and byte padding, Reed–Solomon error correction over GF(256), module placement, masking, format information and the quiet zone are not part of this model. None of them is present in `qrcode.py`.
- Python's dynamic typing is left out. Values of other types for mode, version or data (a non-string mode, a float version) are not modelled.
