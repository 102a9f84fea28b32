/** The `bufio.Reader` that app/main.go wraps around each connection: a byte stream with
    a read cursor, read a line at a time with `ReadString('\n')` and a block at a time
    with `io.ReadFull`. The stream is the whole of what the client sends. */
module BufferedReader {
  import opened Wrappers
  import opened Bytes

  /** Where the line that starts at `pos` ends, one past its line feed; None when the
      rest of the stream holds no line feed. */
  function LineEnd(data: Bytes, pos: nat): (r: Option<nat>)
    requires pos <= |data|
    ensures r.Some? ==> pos < r.value <= |data|
    decreases |data| - pos
  {
    if pos == |data| then None
    else if data[pos] == '\n' then Some(pos + 1)
    else LineEnd(data, pos + 1)
  }

  /** The line ends at the first line feed from `pos`, and there is none exactly when
      no line feed is left. */
  lemma {:induction false} LineEndAtFirstLf(data: Bytes, pos: nat)
    requires pos <= |data|
    ensures var r := LineEnd(data, pos);
      (r.Some? ==> data[r.value - 1] == '\n' && '\n' !in data[pos..r.value - 1]) &&
      (r.None? <==> '\n' !in data[pos..])
    decreases |data| - pos
  {
    if pos < |data| && data[pos] != '\n' {
      LineEndAtFirstLf(data, pos + 1);
      assert data[pos..] == [data[pos]] + data[pos + 1..];
      var r := LineEnd(data, pos + 1);
      if r.Some? {
        assert data[pos..r.value - 1] == [data[pos]] + data[pos + 1..r.value - 1];
      }
    }
  }

  /** The line at `pos` is the text up to the first line feed, the line feed included. */
  lemma LineEndOf(data: Bytes, pos: nat, line: Bytes)
    requires pos + |line| < |data|
    requires data[pos..pos + |line| + 1] == line + "\n"
    requires '\n' !in line
    ensures LineEnd(data, pos) == Some(pos + |line| + 1)
  {
    assert data[pos + |line|] == '\n';
    assert data[pos..][|line|] == '\n';
    LineEndAtFirstLf(data, pos);
    var e := LineEnd(data, pos).value;
    assert forall i :: pos <= i < pos + |line| ==> data[i] == line[i - pos];
    assert forall i :: pos <= i < e - 1 ==> data[pos..e - 1][i - pos] == data[i];
    assert e - 1 == pos + |line|;
  }

  class Reader {
    const data: Bytes
    var pos: nat

    ghost predicate Valid()
      reads this
    {
      pos <= |data|
    }

    /** `bufio.NewReader(conn)`: the cursor is at the start of the stream. */
    constructor (data: Bytes)
      ensures Valid() && this.data == data && pos == 0
    {
      this.data := data;
      pos := 0;
    }

    /** `ReadString('\n')`: the bytes up to and including the next line feed. With no
        line feed left it returns the rest of the stream with an error (`ok` false) and
        the cursor is at the end. */
    method ReadString() returns (line: Bytes, ok: bool)
      requires Valid()
      modifies this
      ensures Valid()
      ensures ok <==> LineEnd(data, old(pos)).Some?
      ensures ok ==> pos == LineEnd(data, old(pos)).value
      ensures !ok ==> pos == |data|
      ensures line == data[old(pos)..pos]
    {
      var i := pos;
      while i < |data| && data[i] != '\n'
        invariant pos <= i <= |data|
        invariant LineEnd(data, i) == LineEnd(data, pos)
      {
        i := i + 1;
      }
      if i < |data| {
        line, pos, ok := data[pos..i + 1], i + 1, true;
      } else {
        line, pos, ok := data[pos..], |data|, false;
      }
    }

    /** `io.ReadFull(reader, make([]byte, n))`: exactly the next `n` bytes, or an error
        (`ok` false) when the stream ends first, having consumed all that was left. */
    method ReadFull(n: nat) returns (buf: Bytes, ok: bool)
      requires Valid()
      modifies this
      ensures Valid()
      ensures ok <==> old(pos) + n <= |data|
      ensures ok ==> buf == data[old(pos)..old(pos) + n] && pos == old(pos) + n
      ensures !ok ==> pos == |data|
    {
      if pos + n <= |data| {
        buf, pos, ok := data[pos..pos + n], pos + n, true;
      } else {
        buf, pos, ok := data[pos..], |data|, false;
      }
    }
  }
}
