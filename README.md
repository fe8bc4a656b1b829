# Stegonagraph in Dafny

A model of the core of Stegonagraph, a Windows Forms tool that hides files inside
BMP/PNG images, WAV recordings and baseline JPEG images. The model covers:

- Hiding. The hidden files are framed into one byte buffer: a 10-byte header, then one
  record per file holding the name, the extension and the body.
- Encryption. The buffer is optionally encrypted with AES (PKCS#7 padding, ECB blocks).
- Distribution. The buffer is cut into portions, one per container, greedily in container
  order.
- Codecs. Each portion is written into the least significant bits of its container, at a
  per-position bit count taken from the steganographic key.
- Extraction. Each step is reversed: containers are read, the ciphertext is trimmed to whole
  blocks and decrypted, and the records are parsed back into files.

Modules follow the source files:

| Source | Modules |
|---|---|
| `AES.cs` | `AesCipher` (the `Aes` class over `array2`/`array3` state), `AesSpec` (FIPS-197 as functions), `AesKnownAnswer` (the FIPS-197 test vectors), `AesTables`, `AesMix`, `GaloisField` (`gmul`) |
| `StegPanel.cs` | `Payload` (the `AesHelper` padding and block mode), `Framing` and `Extractor` (record format and parser), `Distribution`, `Capacity`, `Digits` (`GetPoints`) |
| `MainForm.cs` | `StegoKey` (`KeyStringToLSBByte`, `ValidateKey`) |
| `HelpTools.cs` | `BitStrings` (`AutoAddByte` and binary strings) |
| `BMP.cs` | `RasterPixel`, `RasterCodec`, `RasterDecode`, `RasterProofs` |
| `WAV.cs` | `WaveHeader`, `WaveFrame`, `WaveCodec`, `WaveFile` (the `Wav` class), `WaveProofs`, `LittleEndian` |
| `JPEG.cs` | `JpegMarkers`, `JpegHuffman`, `JpegStuffing`, `JpegScan`, `JpegCodec` (the `Jpeg` class) |
| helpers | `Streams`, `Sequences`, `Texts`, `ByteCodec`, `Wrappers` |

Conventions:

- Binary strings (`"0101…"`) are `seq<bool>`, with the most significant digit first.
- .NET `char` is `bv16`.
- Files are byte sequences.
- Exceptions become `None`, `false` or `null` results.

## Model

| member | source | states |
|---|---|---|
| AesSpec.ShapeOf | Stegonagraph/AES.cs:63-90 | a key length is accepted exactly when it is 16, 24 or 32 bytes; then Nk is the length in words and Nr = Nk + 6 |
| AesCipher.NewAes | Stegonagraph/AES.cs:63-90 | construction fails exactly for key lengths other than 16, 24 and 32 (the throw); otherwise the object has the shape of that length |
| AesCipher.Aes.constructor | Stegonagraph/AES.cs:63-90 | for an accepted key length, Nk and Nr are those of that length and the object is valid |
| AesCipher.Aes.SubBytes | Stegonagraph/AES.cs:169-174 | the state becomes the S-box image of every cell of the old state |
| AesCipher.Aes.InvSubBytes | Stegonagraph/AES.cs:177-182 | the state becomes the inverse S-box image of every cell of the old state |
| AesCipher.Aes.ShiftRows | Stegonagraph/AES.cs:185-208 | row r of the state is turned left by r places |
| AesCipher.Aes.InvShiftRows | Stegonagraph/AES.cs:211-234 | row r of the state is turned right by r places |
| AesCipher.Aes.MixColumns | Stegonagraph/AES.cs:237-251 | every column is multiplied by the MixColumns matrix over GF(2^8) |
| AesCipher.Aes.InvMixColumns | Stegonagraph/AES.cs:254-267 | every column is multiplied by the inverse MixColumns matrix |
| AesCipher.Aes.AddRoundKey | Stegonagraph/AES.cs:270-275 | the state becomes its XOR with the round key of the given round |
| AesCipher.Aes.KeyExpansion | Stegonagraph/AES.cs:278-334 | every round key stored in the key set is the FIPS-197 round key of the master key |
| AesCipher.ScheduleFollows | Stegonagraph/AES.cs:292-333 | the word schedule starts with the key words, and every later word is the XOR of the word Nk earlier with the transformed previous word (RotWord, SubWord and Rcon at multiples of Nk; SubWord at i mod Nk = 4 when Nk > 6) |
| AesSpec.TempAtKeyStart | Stegonagraph/AES.cs:304-317 | at a multiple of Nk the temporary word is SubWord(RotWord(previous)) with the round constant XORed into its first byte, and the Rcon index is in range |
| AesCipher.Aes.Cipher | Stegonagraph/AES.cs:93-130 | the output block is the FIPS-197 encryption of the first 16 input bytes under the key |
| AesCipher.Aes.InvCipher | Stegonagraph/AES.cs:133-166 | the output block is the FIPS-197 decryption of the first 16 input bytes under the key |
| AesTables.SBoxInverse | Stegonagraph/AES.cs:169-182 | the inverse S-box undoes the S-box on every byte |
| AesTables.InvSBoxInverse | Stegonagraph/AES.cs:169-182 | the S-box undoes the inverse S-box on every byte |
| AesSpec.SubBytesInverse | Stegonagraph/AES.cs:169-182 | SubBytes and InvSubBytes are mutually inverse on blocks |
| AesSpec.ShiftRowsInverse | Stegonagraph/AES.cs:185-234 | ShiftRows and InvShiftRows are mutually inverse |
| AesSpec.ShiftRowsRotate | Stegonagraph/AES.cs:185-234 | cell (r, c) after ShiftRows holds cell (r, c + r mod 4); after InvShiftRows it holds cell (r, c - r mod 4) |
| AesSpec.MixColumnsInverse | Stegonagraph/AES.cs:237-267 | MixColumns and InvMixColumns are mutually inverse |
| AesMix.MixProducts0 | Stegonagraph/AES.cs:243-248 | the first output byte of a column, written with `gmul` by 2 and 3, equals the closed xtime form |
| AesMix.InvMixProducts0 | Stegonagraph/AES.cs:260-265 | the first inverse output byte, written with `gmul` by 14, 11, 13 and 9, equals the closed xtime form |
| AesSpec.AddRoundKeyInvolution | Stegonagraph/AES.cs:270-275 | adding the same round key twice gives back the state |
| AesSpec.DecryptOfEncrypt | Stegonagraph/AES.cs:93-166 | the inverse round sequence undoes the forward round sequence for any round keys |
| AesSpec.EncryptOfDecrypt | Stegonagraph/AES.cs:93-166 | the forward round sequence undoes the inverse round sequence |
| AesSpec.InvCipherOfCipher | Stegonagraph/AES.cs:93-166 | InvCipher(Cipher(block)) is the block for every accepted key |
| AesSpec.CipherOfInvCipher | Stegonagraph/AES.cs:93-166 | Cipher(InvCipher(block)) is the block for every accepted key |
| AesKnownAnswer.AppendixVector | Stegonagraph/AES.cs:93-130 | the FIPS-197 Appendix C.1 vector: key 000102..0F and plaintext 00112233..FF give 69C4E0D86A7B0430D8CDB78070B4C55A, through the round states the appendix lists, and the inverse cipher gives the plaintext back |
| AesKnownAnswer.ZeroVector | Stegonagraph/AES.cs:93-130 | the all-zero key and block give 66E94BD4EF8A2C3B884CFA59CA342B2E, and the inverse cipher gives the zero block back |
| GaloisField.CarrylessMultiply | Stegonagraph/AES.cs:338-352 | the product loop computes the carry-less product of the two bytes |
| GaloisField.ReduceProduct | Stegonagraph/AES.cs:354-362 | the reduction loop reduces a product below 2^15 modulo x^8+x^4+x^3+x+1 |
| GaloisField.Gmul | Stegonagraph/AES.cs:338-363 | `gmul` is multiplication in GF(2^8) modulo 0x11B |
| GaloisField.ProductBound | Stegonagraph/AES.cs:346-356 | the carry-less product of two bytes is below 2^15, so reduction starts from degree 14 at most |
| GaloisField.Log2IsDegree | Stegonagraph/AES.cs:344-358 | the digit count the source takes from `Math.Log(x, 2)` is the degree of x: x shifted right by it is 1 |
| GaloisField.GMul2 | Stegonagraph/AES.cs:243-265 | multiplying by 2 is xtime |
| Payload.PadLength | Stegonagraph/StegPanel.cs:46-56 | 1 to 16 bytes of padding bring the length to a multiple of 16 |
| Payload.Pad | Stegonagraph/StegPanel.cs:46-56 | the data, then N bytes of value N, with 1 <= N <= 16 and a total length that is a multiple of 16 |
| Payload.Unpad | Stegonagraph/StegPanel.cs:59-86 | valid PKCS#7 padding is removed and the rest is a proper prefix; invalid padding leaves the data unchanged |
| Payload.UnpadPad | Stegonagraph/StegPanel.cs:46-86 | padding is always valid, and unpadding it gives the data back |
| Payload.PadUnpad | Stegonagraph/StegPanel.cs:46-86 | block-aligned data with valid padding is restored by padding its unpadded form |
| Payload.EcbRoundTrip | Stegonagraph/StegPanel.cs:88-121 | block-by-block decryption undoes block-by-block encryption of aligned data |
| Payload.EncryptPayload | Stegonagraph/StegPanel.cs:88-99 | succeeds exactly for accepted key lengths; the ciphertext is block-aligned and 1 to 16 bytes longer than the plaintext |
| Payload.DecryptPayload | Stegonagraph/StegPanel.cs:101-121 | non-aligned input is refused; empty input gives empty output; aligned, non-empty input with a bad key length fails |
| Payload.PayloadRoundTrip | Stegonagraph/StegPanel.cs:88-121 | decrypting an encryption gives back the plaintext |
| Payload.TrimToBlocks | Stegonagraph/StegPanel.cs:677-691 | data shorter than a block, or already aligned, is kept; otherwise the result is the longest aligned prefix |
| Payload.TrimAppended | Stegonagraph/StegPanel.cs:677-691 | trimming non-empty aligned data followed by less than a block of trailing bytes gives back the aligned data |
| Payload.TrimmedRoundTrip | Stegonagraph/StegPanel.cs:677-713 | a ciphertext followed by up to 15 bytes of container slack is trimmed back to the ciphertext and decrypts to the plaintext |
| Framing.LastIndexOf | Stegonagraph/StegPanel.cs:494 | the result is -1 or a position holding the unit, and no later position holds it |
| Framing.ExtPart | Stegonagraph/StegPanel.cs:494-496 | a name with an extension gives a non-empty extension that holds no dot |
| Framing.SplitJoin | Stegonagraph/StegPanel.cs:494-496 | the name part and the extension part join back into the file name |
| Framing.StoredName | Stegonagraph/StegPanel.cs:498 | the stored name is at most 255 UTF-16 units |
| Framing.Utf16LE | Stegonagraph/StegPanel.cs:501 | two bytes per UTF-16 unit, with a lone surrogate replaced by U+FFFD |
| Framing.AsciiBytes | Stegonagraph/StegPanel.cs:503 | at most one byte per unit, since a surrogate pair becomes a single '?' |
| Framing.AsciiLength | Stegonagraph/StegPanel.cs:502-503 | on 7-bit text the ASCII bytes have exactly as many bytes as there are units, so the length byte matches the field |
| Framing.DecodeNameOfUtf16 | Stegonagraph/StegPanel.cs:779-785 | reading back the UTF-16 bytes of a surrogate-free name, as line 501 writes them, gives the name |
| Framing.WidenOfAscii | Stegonagraph/StegPanel.cs:788-793 | reading back the ASCII bytes of 7-bit text, as line 503 writes them, gives the text |
| Framing.RecordFields | Stegonagraph/StegPanel.cs:500-510 | a record is 7 bytes of lengths plus the name bytes, the extension bytes and the body |
| Framing.Frame | Stegonagraph/StegPanel.cs:486-521 | the frame is the 10-byte header followed by the records |
| Framing.BuildFrame | Stegonagraph/StegPanel.cs:478-521 | no files is refused; otherwise the frame is the header, then every file's record in order |
| Framing.ParseRecordLength | Stegonagraph/StegPanel.cs:768-806 | a parsed record uses at least 7 bytes and no more than there are |
| Framing.ParseFieldsOf | Stegonagraph/StegPanel.cs:775-805 | parsing the record fields of a name, an extension and a body gives them back, with the bytes used |
| Framing.ParseRecordOf | Stegonagraph/StegPanel.cs:768-806 | parsing a file's record as lines 486-512 write it, whatever follows it, gives back that file and the record length |
| Framing.FrameHeader | Stegonagraph/StegPanel.cs:728-746 | the header written at lines 514-521 declares the number of files, and the clamped record area is exactly the records |
| Framing.UnframeFrame | Stegonagraph/StegPanel.cs:720-806 | unframing a frame built by lines 469-521 gives back the declared count and every file (name, extension, body) |
| Extractor.DecodeUnitsAt | Stegonagraph/StegPanel.cs:779-785 | the loop decodes the UTF-16 byte pairs of the name field |
| Extractor.WidenAt | Stegonagraph/StegPanel.cs:788-793 | the loop widens the extension bytes into units |
| Extractor.ReadNumberAt | Stegonagraph/StegPanel.cs:795-797 | the five body-length bytes are read as a big-endian number |
| Extractor.ReadRecordAt | Stegonagraph/StegPanel.cs:773-805 | one pass of the record loop is the record parser applied at the cursor |
| Extractor.ReadRecords | Stegonagraph/StegPanel.cs:768-806 | the record loop collects the files the record parser finds, stopping at the count or at the first bad record |
| Extractor.ExtractFiles | Stegonagraph/StegPanel.cs:720-806 | the extraction is the record-format decoding of the payload, including the under-10-bytes error |
| Distribution.Distribute | Stegonagraph/StegPanel.cs:538-551 | the portions and the remaining bytes are those of the greedy spread over the container capacities |
| Distribution.TotalCapacity | Stegonagraph/StegPanel.cs:383-392 | the total is the sum of the container capacities |
| Distribution.SpreadPrefix | Stegonagraph/StegPanel.cs:538-551 | the portions joined are the first min(length, total capacity) bytes, and the rest is what remains |
| Distribution.SpreadWellPlaced | Stegonagraph/StegPanel.cs:538-551 | portions go to increasing containers, each non-empty and within its capacity |
| Distribution.SpreadGreedy | Stegonagraph/StegPanel.cs:538-551 | every portion but the last fills its container |
| Distribution.AllPlaced | Stegonagraph/StegPanel.cs:538-551 | nothing remains exactly when the buffer fits the total capacity, and then the joined portions are the buffer |
| Distribution.RowSize | Stegonagraph/StegPanel.cs:353-358 | the panel's per-file size is at least the record length, and equal to it for names within limits |
| Distribution.RowSizesCover | Stegonagraph/StegPanel.cs:383-392 | the panel's size sum (its record sizes are those of lines 353-358) covers the records, exactly when every name is within limits |
| Distribution.HiddenLength | Stegonagraph/StegPanel.cs:523-536 | the encrypted buffer is the frame length padded up to whole blocks |
| Distribution.FrameWithinGrid | Stegonagraph/StegPanel.cs:372-377 | the frame is no longer than the panel's size sum plus the 10 header bytes |
| Distribution.AdmittedHiddenFits | Stegonagraph/StegPanel.cs:433-551 | with padding counted, a buffer the up-front check admits is placed completely |
| Distribution.AsWrittenLosesPadding | Stegonagraph/StegPanel.cs:433-444 | the check as written admits a container exactly as large as the frame, yet the encrypted buffer leaves bytes behind |
| Capacity.BitsPerChannel | Stegonagraph/StegPanel.cs:233-234 | a key entry counts as 1 to 8 bits per channel: 0 counts as 1 and values above 8 as 8 |
| Capacity.BmpCapacity | Stegonagraph/StegPanel.cs:222-237 | the image capacity is the key-cycled sum of 3 × bits per channel, in bytes |
| Capacity.WavCapacity | Stegonagraph/StegPanel.cs:244-251 | the audio capacity is the key-cycled sum over frames in bytes, doubled for more than one channel; there is no capacity (None) exactly when the frame size is 0, where the division throws and the panel adds no row (StegPanel.cs:268-271) |
| Capacity.CycleSumRounds | Stegonagraph/StegPanel.cs:222-251 | a sum over whole key cycles is that many times the sum over one cycle |
| Capacity.ImageCapacityBounds | Stegonagraph/StegPanel.cs:222-237 | the image capacity lies between 3n/8 and 3n bytes for n pixels |
| Digits.GetPoints | Stegonagraph/StegPanel.cs:393-409 | the result is the decimal digits grouped in threes from the right, with '.' separators |
| Digits.UngroupGrouped | Stegonagraph/StegPanel.cs:393-409 | removing the separators gives back the digits |
| Digits.GroupedLength | Stegonagraph/StegPanel.cs:393-409 | n digits give one separator per full group after the first: n + (n - 1) / 3 characters |
| Digits.PointsOfNumber | Stegonagraph/StegPanel.cs:393-409 | the grouped form of a number carries exactly its decimal digits |
| StegoKey.KeyStringToLSBByte | Stegonagraph/MainForm.cs:39-55 | the key bytes are the derived key: four 2-bit entries per character, lowest pair first |
| StegoKey.Entries | Stegonagraph/MainForm.cs:46-51 | every character gives four entries, each below 4 |
| StegoKey.DerivedKeyEntry | Stegonagraph/MainForm.cs:39-55 | key byte 4i + j is entry j of character i |
| StegoKey.CombineEntries | Stegonagraph/MainForm.cs:46-51 | the four entries reassemble the low byte of the character |
| StegoKey.DerivedKeyInjective | Stegonagraph/MainForm.cs:39-55 | equal derived keys come from passphrases of the same length with the same low bytes |
| StegoKey.AcceptedTopEntries | Stegonagraph/MainForm.cs:83-97 | a passphrase the validation accepts gives a non-empty key whose fourth entry per character is 0 or 1 |
| BitStrings.AutoAddByte | Stegonagraph/HelpTools.cs:16-25 | zeros are prepended up to the target length; the string is kept as its suffix and longer strings are unchanged |
| BitStrings.LeftPadFacts | Stegonagraph/HelpTools.cs:16-25 | padding keeps the value, and padding twice is padding once |
| BitStrings.FixedBitsValue | Stegonagraph/HelpTools.cs:16-25 | the fixed-width binary form of a number below 2^w has exactly that value |
| BitStrings.ValueInjective | Stegonagraph/HelpTools.cs:16-25 | equal-length digit strings of equal value are equal |
| ByteCodec.BigEndianRoundTrip | Stegonagraph/StegPanel.cs:795-797 | reading back the big-endian bytes written at lines 506-510 of a number gives the number modulo 256^width, so a five-byte body length below 2^40 is read back exactly |
| RasterPixel.EmbedChannelFacts | Stegonagraph/BMP.cs:123-131 | embedding k bits keeps a channel's top 8 - k bits, and its low k bits read back as the embedded bits |
| RasterPixel.ReadWritePixel | Stegonagraph/BMP.cs:83-136 | reading a pixel written with k bits per channel gives back the 3k bits written |
| RasterCodec.WriteToBitmap | Stegonagraph/BMP.cs:110-136 | only the pixel at pos changes, to the written pixel, and 3k bits are consumed |
| RasterCodec.HideInChannels | Stegonagraph/BMP.cs:123-131 | channels 0, 1 and 2 take the next k bits each, in turn |
| RasterDecode.ReadFromBitmap | Stegonagraph/BMP.cs:83-108 | the bits read are the low k bits of the three channels |
| RasterCodec.EncodeBytes | Stegonagraph/BMP.cs:17-34 | the main loop succeeds exactly when the byte-by-byte phase does, and leaves its image and cursor |
| RasterCodec.BmpEncode | Stegonagraph/BMP.cs:17-53 | success exactly when the whole encoding (main loop, zero padding, drain) fits, and then the image is the encoded image |
| RasterCodec.MainPhaseFails | Stegonagraph/BMP.cs:23-34 | once a prefix of the data does not fit, the whole data does not fit |
| RasterDecode.BmpDecode | Stegonagraph/BMP.cs:56-81 | the result is the as-written decoding of `len` bytes, with its `!=` stop test |
| RasterProofs.DecodeReads | Stegonagraph/BMP.cs:56-81 | once the readable bits cover len bytes, decoding (with the `>=` stop) gives exactly the first len bytes of them |
| RasterProofs.RoundTrip | Stegonagraph/BMP.cs:17-81 | decoding an encoded image with the `>=` stop (the corrected decoder, see Findings) gives back exactly the hidden data |
| RasterProofs.ReadableCapacityDecodes | Stegonagraph/BMP.cs:56-81 | as many bytes as the key really lets the image hold can always be decoded |
| WaveHeader.ReadField | Stegonagraph/WAV.cs:28-57 | a header field is the little-endian value of its bytes |
| WaveHeader.SeekData | Stegonagraph/WAV.cs:61-68 | the scan stops one past the first "data" tag at or after byte 34, or at the end when there is none |
| WaveHeader.ScanFromFirst | Stegonagraph/WAV.cs:61-68 | a tag found by the scan is the first one from the start position; no tag means none exists |
| WaveHeader.DataOffsetAsWritten | Stegonagraph/WAV.cs:61-81 | with the tag at p, the parsed data starts at p + 9 and its length is read from p + 5 |
| WaveFile.Wav.Open | Stegonagraph/WAV.cs:19-82 | opening fails exactly when the header cannot be parsed; otherwise the object holds the parsed header |
| WaveFrame.SamplesUsed | Stegonagraph/WAV.cs:92 | a mono file uses one sample per frame and every other file two |
| WaveCodec.LayoutOf | Stegonagraph/WAV.cs:92-121 | the sample width is the header's bits per sample, and one sample is used exactly for mono |
| WaveFile.Rotate | Stegonagraph/WAV.cs:117-121 | the rotation turns the frame digits left by one sample width the given number of times |
| WaveFile.ReadRotated | Stegonagraph/WAV.cs:105-121 | the frame is read as one little-endian word and rotated |
| WaveFrame.FrameRoundTrip | Stegonagraph/WAV.cs:223-236 | for one or two samples per frame, reading a frame written by lines 105-142 gives back the hidden bits |
| WaveFile.Wav.WavEncode | Stegonagraph/WAV.cs:84-195 | success exactly when the file encoding fits, and then the data is the encoded file |
| WaveFile.Wav.WavDecode | Stegonagraph/WAV.cs:197-250 | the result is the decoding of the file |
| WaveProofs.RoundTrip | Stegonagraph/WAV.cs:84-250 | on mono and two-channel frames, decoding an encoding starts with the hidden data |
| WaveProofs.FileRoundTrip | Stegonagraph/WAV.cs:84-250 | the same for the whole file: the header is kept and decoding the encoded file starts with the hidden data |
| WaveHeader.HeaderFromPrefix | Stegonagraph/WAV.cs:19-82 | the header reads nothing from the samples on: a file of the same length that keeps every byte before the samples parses to the same header |
| WaveProofs.ReopenedRoundTrip | Stegonagraph/WAV.cs:84-250 | the written file, opened again, parses to the original header, and decoding it with that header starts with the hidden data |
| JpegMarkers.ReadSof | Stegonagraph/JPEG.cs:40-57 | a start-of-frame segment gives three per-component block counts and the next position |
| JpegMarkers.ReadDht | Stegonagraph/JPEG.cs:60-104 | a Huffman table segment gives its class, its table and a later position |
| JpegMarkers.AddTable | Stegonagraph/JPEG.cs:100-103 | a DC table is appended to the DC tables and an AC table to the AC tables; nothing else changes |
| JpegMarkers.Walk | Stegonagraph/JPEG.cs:28-112 | a successful walk stops at an FF marker of the stop set |
| JpegCodec.Jpeg.Open | Stegonagraph/JPEG.cs:28-112 | opening fails exactly when the marker walk fails; otherwise the object holds the parsed header and no results |
| JpegHuffman.BuildCodes | Stegonagraph/JPEG.cs:66-92 | codes are built exactly when the counts fit, and they are the canonical code rows |
| JpegHuffman.CodesFit | Stegonagraph/JPEG.cs:66-92 | every code of length l + 1 is below 2^(l + 1) |
| JpegHuffman.PrefixFree | Stegonagraph/JPEG.cs:66-92 | no shorter code is a prefix of a longer one |
| JpegHuffman.Consecutive | Stegonagraph/JPEG.cs:66-92 | codes of one length are consecutive |
| JpegMarkers.ReadSos | Stegonagraph/JPEG.cs:157-180 | the scan starts after the declared segment length, with one selector pair per component |
| JpegMarkers.ReadSelectors | Stegonagraph/JPEG.cs:171-178 | the selectors are read exactly when the bytes are there: DC from the high half and AC from the low half of each byte |
| JpegCodec.CopyPrefix | Stegonagraph/JPEG.cs:183-187 | the output starts as the bytes before the scan |
| JpegScan.Fill | Stegonagraph/JPEG.cs:239-256 | refilling only appends digits, and stops with at least 32 digits or at the end-of-image marker |
| JpegScan.FirstMatch | Stegonagraph/JPEG.cs:264-319 | the entry found is the first one with that code, and none means no entry has it |
| JpegScan.Advance | Stegonagraph/JPEG.cs:197-208 | the block counter goes up within a component, and it wraps to 1 on the next component after the component's count |
| JpegScan.WriteCode | Stegonagraph/JPEG.cs:541-561 | the chunk is kept as a prefix; one more data byte is appended while data remains, otherwise zeros |
| JpegScan.Embed | Stegonagraph/JPEG.cs:334-378 | encoding writes exactly the amplitude's digit count; info and decode leave the output unchanged |
| JpegScan.EmbedReadBack | Stegonagraph/JPEG.cs:340-378 | the hidden digits decoding reads from an amplitude are exactly those encoding placed there |
| JpegScan.EmptyKeyApply | Stegonagraph/JPEG.cs:334-378 | with an empty key, an AC amplitude is processed exactly when the encoder has nothing left to hide (the copy at lines 361-364 reads no key); info, decode and an encoder with data left fail as the `%` by zero does |
| JpegScan.ExhaustedIgnoresKey | Stegonagraph/JPEG.cs:342-364 | once the data and the pending chunk are used up, an encoder step gives the same result under any two keys and leaves nothing to hide |
| JpegScan.EncodeNothingIgnoresKey | Stegonagraph/JPEG.cs:137-437 | encoding no data gives the same outcome under any two keys, the empty key included |
| JpegStuffing.StuffedFF | Stegonagraph/JPEG.cs:218-226 | every FF the encoder writes is followed by 00 |
| JpegStuffing.UnstuffStuff | Stegonagraph/JPEG.cs:218-256 | reading stuffed bytes up to the end-of-image marker gives back the bytes |
| JpegStuffing.WriteByte | Stegonagraph/JPEG.cs:218-226 | a written byte is appended, with a 00 after an FF |
| JpegStuffing.EmitStuffed | Stegonagraph/JPEG.cs:214-236 | the output grows by the stuffed whole bytes of the chunk, and the leftover digits are kept |
| JpegCodec.FinishedEncode | Stegonagraph/JPEG.cs:397-417 | finishing an encode flushes the pending digits as stuffed bytes and appends FF D9 |
| JpegCodec.FinishedDecode | Stegonagraph/JPEG.cs:418-426 | finishing a decode appends the whole bytes of the pending hidden digits |
| JpegCodec.ProcessAt | Stegonagraph/JPEG.cs:137-437 | the scan loop computes the processing outcome of the image in the given mode, with the key read only where the source reads it (an encoder with nothing left to hide copies amplitudes without it) |
| JpegCodec.Jpeg.Processing | Stegonagraph/JPEG.cs:137-437 | success exactly when processing succeeds, an empty key included; info, secret bytes and written image are its outcome |
| JpegCodec.Jpeg.GetInfo | Stegonagraph/JPEG.cs:115-118 | the capacity is the outcome of processing in info mode |
| JpegCodec.Jpeg.JpegEncode | Stegonagraph/JPEG.cs:121-124 | success exactly when encoding produces an image, and the result is that image; by `JpegScan.EncodeNothingIgnoresKey`, encoding no data under an empty key succeeds exactly as under any other key |
| JpegCodec.Jpeg.JpegDecode | Stegonagraph/JPEG.cs:127-130 | the secret bytes are the outcome of processing in decode mode |
| Streams.PadStream | Stegonagraph/BMP.cs:37-38 | the stream is padded with zeros to a multiple of the unit |
| Streams.EmitBytes | Stegonagraph/BMP.cs:73-77 | whole bytes of the digits are appended, and fewer than 8 digits are kept |
| Streams.DataBitsInjective | Stegonagraph/BMP.cs:66-77 | equal digit streams come from equal byte sequences |
| RasterProofs.DecodedMissesLength | Stegonagraph/BMP.cs:64 | when no pixel boundary gives exactly len bytes, the as-written decoding never finishes |
| RasterProofs.OvershootFails | Stegonagraph/BMP.cs:64 | with key "?" and 8 bytes, the as-written decoding fails on every image |
| RasterProofs.OvershootCorrected | Stegonagraph/BMP.cs:64 | with the `>=` stop, the same case decodes |
| RasterProofs.CapacityOvercount | Stegonagraph/StegPanel.cs:222-237 | with key "?" an 8-pixel image is credited with 7 bytes, none of which can be decoded |
| WaveHeader.DataOffsetCanonical | Stegonagraph/WAV.cs:61-81 | the intended reading: data starts right after the 4 size bytes at p + 8, and its length is the size field |
| WaveHeader.DataLengthMisread | Stegonagraph/WAV.cs:71-78 | for a 4-byte data chunk holding 11 22 33 44, the as-written length is 0x11000000 where the size field says 4 |
| WaveFrame.ThreeChannelsMisread | Stegonagraph/WAV.cs:223-236 | for three channels, after the write of lines 117-142, the second run read back is the last channel, which the write left as it was |
| WaveFrame.ThreeChannelsCounterexample | Stegonagraph/WAV.cs:117-142 | a silent three-channel 8-bit frame with the bits 1, 1 hidden reads back differently |
| WaveFrame.SlotsRoundTrip | Stegonagraph/WAV.cs:124-142 | reading each used sample at its own place gives back the hidden bits, whatever the number of channels |

## Left out

- The user interface: forms, grids, message boxes, previews, stopwatches and the PSNR calculator (PSNRCalculator.cs). They do not affect the hidden bytes.
- File and bitmap I/O. Containers are byte sequences, or arrays of pixels for BMP/PNG, and nothing is saved to disk.
- `JpegCompressor` (JPEG.cs:457-537). It re-encodes an image to baseline through System.Drawing, which is not part of this model. The JPEG codec takes the baseline bytes as given.
- GaloisField.Gmul: `Math.Log(x, 2)` is a floating-point computation. The model uses the exact binary logarithm, the position of the highest set digit, and assumes the two agree for the values below 2^15 that occur.
- Payload.EncryptPayload: the helper calls `new AES(password)`, `aes.Encrypt` and `aes.DeCrypt` (StegPanel.cs:92-96, 113-116), and none of them exists in AES.cs. The model encrypts block by block (ECB) with `Aes.Cipher`, using the key bytes as the AES key. Password-to-key derivation is not modelled.
- Payload.DecryptPayload: the same substitution for `AES(password)` and `aes.DeCrypt`.
- AesCipher.Aes.constructor: requires an accepted key length rather than throwing. The throw at AES.cs:88 is modelled by `AesCipher.NewAes`, which returns `None`.
- Capacity.WavCapacity: `AudioInfoCount` (StegPanel.cs:245) is not a member of the WAV class. The model uses the audio data length in its place.
- Capacity.BmpCapacity: the `ulong` sum is unbounded here. The model does not wrap around at 2^64.
- Integer widths: `int`, `long` and `ulong` counters are mathematical integers, and `(byte)` casts are written out where they matter (name length, `(byte)keyStr[i]`).
- Exceptions: an exception becomes a `None`, `false` or `null` result, with the failing condition stated. The `catch` in the record loop only stops the loop (`break`). The `catch` in the hiding loop (StegPanel.cs:598-601) logs the failure and goes on with the next container. That container's portion is lost, because it was already removed from the remaining data (StegPanel.cs:549-550). Later containers still get their portions, and the panel still reports success (StegPanel.cs:606). Hiding across containers as a whole, including this loss, is not modelled; the model covers each container's codec on its own portion.
- RasterCodec.BmpEncode: requires every key entry to be at most 8. The source reads a key entry as a bit count with no clamp, and `WriteToBitmap` would fail on larger values.
- WaveProofs.RoundTrip: proved for files with one or two samples per frame that the codec reads as interleaved. Three or more channels do not round-trip; see Findings.
- JpegCodec.Jpeg.Processing: the whole-image JPEG round trip (decode of encode) is not proved. The model proves the parts: the per-amplitude partner (`JpegScan.EmbedReadBack`), the stuffing inverse (`JpegStuffing.UnstuffStuff`) and the Huffman code properties. Chaining them over the block loop, with the re-read of re-stuffed bytes, is not done.
- JpegCodec.ProcessAt: as in the source, processing ends at the end of the first scan, so images with several scans (progressive JPEG) are processed only as far as the first.
- Extractor.ExtractFiles: file names with lone surrogates do not round-trip, because the encoder replaces them by U+FFFD. `Framing.UnframeFrame` states the round trip for surrogate-free names and 7-bit extensions.

## Findings

| source | as written | input that shows it | evidently intended | confidence | as-written member | corrected member |
|---|---|---|---|---|---|---|
| Stegonagraph/BMP.cs:64 | the decode loop stops only when the byte count equals `len` exactly (`!=`), so a pixel that carries past `len` bytes makes it read on until the image ends and fail. This shows only for a caller that passes a `len` smaller than the bytes the pixels carry; the panel's only call (StegPanel.cs:639) passes the capacity, which is never below that count (RasterProofs.CapacityAtMost) | key "?" (entries 3,3,3,0) and `len` = 8: the byte count after each pixel skips 8 | stop once at least `len` bytes are read (`<`), keeping the first `len` | not executed | RasterProofs.OvershootFails | RasterProofs.OvershootCorrected |
| Stegonagraph/StegPanel.cs:222-237 | the capacity counts a key entry 0 as 1 bit per channel, but the codec stores nothing there | key "?" and an 8-pixel image: 7 bytes credited, none decodable | count 0 bits for entry 0 | not executed | RasterProofs.CapacityOvercount | RasterProofs.ReadableCapacityDecodes |
| Stegonagraph/WAV.cs:71-81 | with the "data" tag at p, the length is read from p + 5 and the samples start at p + 9 | a chunk `data`, size 4, samples 11 22 33 44: the length is misread and the first sample byte skipped | length at p + 4, samples at p + 8 | not executed | WaveHeader.DataLengthMisread | WaveHeader.DataOffsetCanonical |
| Stegonagraph/StegPanel.cs:433-444 | the up-front check compares the unencrypted frame size with the capacity, but encryption adds 1 to 16 bytes of padding | one container exactly as large as the frame, with a password: the last block does not fit | include the padded length in the check | not executed | Distribution.AsWrittenLosesPadding | Distribution.AdmittedHiddenFits |
| Stegonagraph/WAV.cs:117-121 | the second hidden run is read from the rotated frame, where it is the last channel, but it is written into channel 1 | a silent three-channel 8-bit frame hiding 1, 1 | read and write each used sample at its own place | not executed | WaveFrame.ThreeChannelsCounterexample | WaveFrame.SlotsRoundTrip |
