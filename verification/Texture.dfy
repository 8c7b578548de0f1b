// A texture's pixels, and copying a block from one texture to another.
module Texture {
  import opened AtlasHandles

  predicate Covers(r: TexRect, x: int, y: int) {
    r.x <= x < r.x + r.w && r.y <= y < r.y + r.h
  }

  class Texture {
    const width: int
    const height: int
    const px: array2<int>   // row, column

    ghost predicate Valid()
      reads this
    {
      0 <= width && 0 <= height && px.Length0 == height && px.Length1 == width
    }

    constructor (width: int, height: int)
      requires 0 <= width && 0 <= height
      ensures Valid() && this.width == width && this.height == height && fresh(px)
    {
      this.width, this.height := width, height;
      px := new int[height, width];
    }

    ghost predicate Holds(r: TexRect)
      reads this
    {
      0 <= r.x && 0 <= r.y && 0 <= r.w && 0 <= r.h && r.x + r.w <= width && r.y + r.h <= height
    }

    // The pixel of rectangle r at the given offset.
    function At(r: TexRect, dx: int, dy: int): int
      requires Valid() && Holds(r) && 0 <= dx < r.w && 0 <= dy < r.h
      reads this, px
    {
      px[r.y + dy, r.x + dx]
    }

    // Copy block s of src to d, row by row.
    method BlockCopy(src: Texture, s: TexRect, d: TexRect)
      requires Valid() && src.Valid() && src.px != px
      requires src.Holds(s) && Holds(d) && s.w == d.w && s.h == d.h
      modifies px
      ensures forall dx, dy :: 0 <= dx < d.w && 0 <= dy < d.h ==> At(d, dx, dy) == src.At(s, dx, dy)
      ensures forall x, y :: 0 <= x < width && 0 <= y < height && !Covers(d, x, y) ==> px[y, x] == old(px[y, x])
    {
      var row := 0;
      while row < d.h
        invariant 0 <= row <= d.h
        invariant forall dx, dy :: 0 <= dx < d.w && 0 <= dy < row ==> At(d, dx, dy) == src.At(s, dx, dy)
        invariant forall x, y :: 0 <= x < width && 0 <= y < height && !Covers(d, x, y) ==> px[y, x] == old(px[y, x])
      {
        var col := 0;
        while col < d.w
          invariant 0 <= col <= d.w
          invariant forall dx, dy :: 0 <= dx < d.w && 0 <= dy < row ==> At(d, dx, dy) == src.At(s, dx, dy)
          invariant forall dx :: 0 <= dx < col ==> At(d, dx, row) == src.At(s, dx, row)
          invariant forall x, y :: 0 <= x < width && 0 <= y < height && !Covers(d, x, y) ==> px[y, x] == old(px[y, x])
        {
          px[d.y + row, d.x + col] := src.px[s.y + row, s.x + col];
          col := col + 1;
        }
        row := row + 1;
      }
    }
  }
}
