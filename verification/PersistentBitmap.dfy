/** A bitmap kept in a file: code/filesys/pbitmap.cc. */
module PersistentBitmaps {
  import opened Bytes
  import opened Bitmaps
  import opened DiskLayout
  import opened OpenFiles

  /** Loads the words of a bitmap from the file that holds them. */
  method FetchFrom(bits: Bitmap, file: OpenFile)
    requires bits.Valid() && file.Valid() && Length(file.hdr.Value()) == 4 * bits.words.Length
    modifies bits.words
    ensures bits.words[..] == DecodeWords(Content(file.disk.sectors, file.hdr.Value()))
  {
    ghost var content := Content(file.disk.sectors, file.hdr.Value());
    var r := file.ReadAt(4 * bits.words.Length, 0);
    assert r.value == content;
    var ws := DecodeWords(r.value);
    forall i | 0 <= i < bits.words.Length {
      bits.words[i] := ws[i];
    }
    assert bits.words[..] == ws;
  }

  /** Stores the words of a bitmap in the file that holds them, replacing the whole content. */
  method WriteBack(bits: Bitmap, file: OpenFile)
    requires bits.Valid() && file.Valid() && Length(file.hdr.Value()) == 4 * bits.words.Length
    modifies file.disk
    ensures Written(old(file.disk.sectors), file.hdr.Value(), 0, EncodeWords(bits.words[..]), file.disk.sectors)
    ensures DecodeWords(Content(file.disk.sectors, file.hdr.Value())) == bits.words[..]
  {
    var bytes := EncodeWords(bits.words[..]);
    var r := file.WriteAt(bytes, 4 * bits.words.Length, 0);
    assert bytes[..r.value] == bytes;
    WordsRoundTrip(bits.words[..]);
    assert Content(file.disk.sectors, file.hdr.Value()) == bytes;
  }
}
