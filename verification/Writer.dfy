/** The buffered append-only writer (src/io/writer.cc), over a file that is a sequence of bytes. */
module Writer {
  import opened Bytes
  import opened Lists

  class SequentialWriter {
    const buffer: array<byte>
    var pos: nat
    ghost var file: seq<byte>

    predicate Valid()
      reads this
    {
      buffer.Length > 0 && pos <= buffer.Length
    }

    function Buffered(): seq<byte>
      reads this, buffer
      requires Valid()
    {
      buffer[..pos]
    }

    constructor (capacity: nat, ghost file: seq<byte>)
      requires capacity > 0
      ensures Valid() && pos == 0 && this.file == file && fresh(buffer)
    {
      buffer := new byte[capacity];
      pos, this.file := 0, file;
    }

    // memcpy(buffer_ + pos_, src, n)
    method CopyIn(src: seq<byte>)
      requires Valid() && pos + |src| <= buffer.Length
      modifies this`pos, buffer
      ensures Valid() && Buffered() == old(Buffered()) + src
    {
      var i := 0;
      while i < |src|
        invariant i <= |src| && pos == old(pos)
        invariant buffer[..pos + i] == old(Buffered()) + src[..i]
      {
        buffer[pos + i] := src[i];
        i := i + 1;
      }
      pos := pos + i;
    }

    /** Buffers as much of src as fits; the result is how much that was. */
    method AppendToBuffer(src: seq<byte>) returns (n: nat)
      requires Valid()
      modifies this`pos, buffer
      ensures Valid() && n <= |src| && Buffered() == old(Buffered()) + src[..n]
      ensures n < |src| ==> pos == buffer.Length
    {
      if pos + |src| > buffer.Length {
        n := buffer.Length - pos;
        CopyIn(src[..n]);
      } else {
        n := |src|;
        CopyIn(src);
        assert src[..n] == src;
      }
    }

    /** Appends the buffer to the file, in as many write calls as it takes, and empties it. */
    method WriteAppendFile()
      requires Valid()
      modifies this`pos, this`file
      ensures Valid() && file == old(file) + old(Buffered()) && pos == 0
    {
      var written := 0;
      while written < pos
        invariant written <= pos == old(pos) && file == old(file) + buffer[..written]
      {
        var count: nat :| 0 < count <= pos - written;  // what one successful call wrote
        file := file + buffer[written..written + count];
        written := written + count;
      }
      pos := 0;
    }

    // One entry of a batch: everything but a rest that is still buffered goes to the file.
    method WriteEntry(entry: seq<byte>)
      requires Valid()
      modifies this`pos, this`file, buffer
      ensures Valid() && file + Buffered() == old(file + Buffered()) + entry
    {
      var e := entry;
      var buffered: nat := AppendToBuffer(e);
      while buffered != |e|
        invariant Valid() && buffered <= |e|
        invariant file + Buffered() + e[buffered..] == old(file + Buffered()) + entry
        decreases |e| - buffered
      {
        e := e[buffered..];
        WriteAppendFile();
        buffered := AppendToBuffer(e);
      }
    }

    /** WriteBatch terminates having appended what was buffered and the entries of [begin, end), in
        order, however large they are, and leaves nothing buffered. */
    method WriteBatch(entries: seq<seq<byte>>, begin: nat, end: nat)
      requires Valid() && begin <= end <= |entries|
      modifies this`pos, this`file, buffer
      ensures Valid() && pos == 0
      ensures file == old(file) + old(Buffered()) + Flatten(entries[begin..end])
    {
      for i := begin to end
        invariant Valid()
        invariant file + Buffered() == old(file) + old(Buffered()) + Flatten(entries[begin..i])
      {
        WriteEntry(entries[i]);
        assert entries[begin..i + 1] == entries[begin..i] + [entries[i]];
        FlattenMore(entries[begin..i], entries[i]);
      }
      if pos != 0 {
        WriteAppendFile();
      }
    }

    /** WriteFragment appends exactly the fragment; what was buffered before is dropped. */
    method WriteFragment(fragment: seq<byte>)
      requires Valid()
      modifies this`pos, this`file, buffer
      ensures Valid() && pos == 0 && file == old(file) + fragment
    {
      var rest := fragment;
      pos := 0;
      while rest != []
        invariant Valid() && pos == 0 && file + rest == old(file) + fragment
        decreases |rest|
      {
        var buffered := AppendToBuffer(rest);
        rest := rest[buffered..];
        WriteAppendFile();
      }
    }
  }
}
