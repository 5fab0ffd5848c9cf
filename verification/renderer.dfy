/**
 * The state the C electron renderer (`source/renderer.c`) keeps between
 * frames: two frame textures, the index of the current one, and the `clear`
 * flag that `mv_clear_frame` raises and the next render consumes. A texture
 * is its sequence of RGBA pixels; the GL calls that move them are left out,
 * and the compute dispatch applies a hit mask that `DispatchRunsPixel`
 * relates to the per-pixel shader rule of module Shader.
 */
module Renderer {
  import opened Bytes
  import opened Shader
  import opened Vec
  import CColor

  type Texture = seq<Rgba>

  /** `current_texture` is an index into `frame_texture[2]`; `clear` is the int8 flag. */
  datatype Renderer = Renderer(textures: seq<Texture>, current: nat, clear: bool, width: nat, height: nat)

  predicate Valid(r: Renderer)
  {
    |r.textures| == 2 && r.current < 2
    && forall i :: 0 <= i < 2 ==> |r.textures[i]| == r.width * r.height
  }

  /** C's `!` on a texture index: 0 becomes 1, anything else 0. */
  function Not(i: nat): (j: nat)
    ensures j < 2 && (j == 0 <==> i != 0)
  {
    if i == 0 then 1 else 0
  }

  /** A texture with every component zero, as `calloc` provides it. */
  function Blank(n: nat): (t: Texture)
    ensures |t| == n && forall i :: 0 <= i < n ==> t[i] == Rgba(0.0, 0.0, 0.0, 0.0)
  {
    seq(n, _ => Rgba(0.0, 0.0, 0.0, 0.0))
  }

  /**
   * `mv_create_electron_renderer`. The texture contents `glTexImage2D` leaves
   * with a NULL pointer are unspecified, so they are parameters.
   */
  function Create(width: u32, height: u32, t0: Texture, t1: Texture): (r: Renderer)
    requires |t0| == width * height && |t1| == width * height
    ensures Valid(r) && r.current == 0 && !r.clear
    ensures r.width == width && r.height == height && r.textures == [t0, t1]
  {
    Renderer([t0, t1], 0, false, width, height)
  }

  /** `mv_clear_frame`: raise the flag and switch textures; no pixel changes yet. */
  function ClearFrame(r: Renderer): (r': Renderer)
    requires Valid(r)
    ensures Valid(r') && r'.clear && r'.current == Not(r.current) && r'.current != r.current
    ensures r'.textures == r.textures
  {
    r.(clear := true, current := Not(r.current))
  }

  /**
   * `mv_render_electron_gun`, as far as the textures go: a pending clear
   * overwrites the non-current texture with zeros and drops the flag; the
   * draw only reads the current texture.
   */
  function Render(r: Renderer): (r': Renderer)
    requires Valid(r)
    ensures Valid(r') && !r'.clear && r'.current == r.current
    ensures r'.textures[r.current] == r.textures[r.current]
    ensures r.clear ==> r'.textures[Not(r.current)] == Blank(r.width * r.height)
    ensures !r.clear ==> r' == r
  {
    if r.clear then
      r.(textures := r.textures[Not(r.current) := Blank(r.width * r.height)], clear := false)
    else r
  }

  /** A palette byte as the `glUniform3f` and `glClearColor` calls pass it: channel / 255. */
  function Channel(v: byte): (c: real)
    ensures 0.0 <= c <= 1.0
    ensures c == 0.0 <==> v == 0
    ensures c == 1.0 <==> v == 255
  {
    v as real / 255.0
  }

  /** A palette colour as the shader's `vec3` receives it. */
  function Upload(c: CColor.Color): (u: Rgb)
    ensures 0.0 <= u.r <= 1.0 && 0.0 <= u.g <= 1.0 && 0.0 <= u.b <= 1.0
  {
    Rgb(Channel(c.r), Channel(c.g), Channel(c.b))
  }

  /** Distinct palette bytes stay distinct after upload, in order. */
  lemma ChannelMonotone(v: byte, w: byte)
    ensures v < w <==> Channel(v) < Channel(w)
  {
  }

  /**
   * `mv_calculate_pixels_electron_renderer` on the current texture: pixel i
   * is passed through the shader rule when `hit[i]`, and otherwise left as it
   * was. The mask is a parameter; `DispatchRunsPixel` shows that with the
   * shader's own hit test as the mask this is Shader.Pixel at every pixel.
   */
  function Dispatch(r: Renderer, hit: seq<bool>, secondary: CColor.Color, power: real): (r': Renderer)
    requires Valid(r) && |hit| == r.width * r.height
    ensures Valid(r') && r'.current == r.current && r'.clear == r.clear
    ensures r'.textures[Not(r.current)] == r.textures[Not(r.current)]
    ensures forall i :: 0 <= i < |hit| ==>
      r'.textures[r.current][i] == if hit[i] then Lit(r.textures[r.current][i], Upload(secondary), power) else r.textures[r.current][i]
  {
    var t := r.textures[r.current];
    var t' := seq(|t|, i requires 0 <= i < |t| => if hit[i] then Lit(t[i], Upload(secondary), power) else t[i]);
    r.(textures := r.textures[r.current := t'])
  }

  /** The renderer after n clear requests. */
  function ClearTimes(r: Renderer, n: nat): (r': Renderer)
    requires Valid(r)
    ensures Valid(r') && r'.textures == r.textures
  {
    if n == 0 then r else ClearFrame(ClearTimes(r, n - 1))
  }

  /** After n clears of a new renderer the current texture is n mod 2, and the flag is up once n > 0. */
  lemma {:induction false} ClearTimesParity(r: Renderer, n: nat)
    requires Valid(r) && r.current == 0
    ensures ClearTimes(r, n).current == n % 2
    ensures ClearTimes(r, n).clear == (n > 0 || r.clear)
  {
    if n > 0 {
      ClearTimesParity(r, n - 1);
    }
  }

  /**
   * The flag does not count: two clears before one render blank only the
   * texture that is non-current at render time, and the texture that was
   * current before the clears survives untouched.
   */
  lemma TwoClearsBlankOnce(r: Renderer)
    requires Valid(r)
    ensures var r' := Render(ClearFrame(ClearFrame(r)));
      r'.current == r.current && !r'.clear
      && r'.textures[r.current] == r.textures[r.current]
      && r'.textures[Not(r.current)] == Blank(r.width * r.height)
  {
  }

  /** Shader writes go to the current texture only; a clear that follows blanks the texture written last frame once rendered. */
  lemma DispatchThenClear(r: Renderer, hit: seq<bool>, secondary: CColor.Color, power: real)
    requires Valid(r) && |hit| == r.width * r.height
    ensures var r' := Render(ClearFrame(Dispatch(r, hit, secondary, power)));
      r'.current == Not(r.current) && r'.textures[r.current] == Blank(r.width * r.height)
      && r'.textures[Not(r.current)] == r.textures[Not(r.current)]
  {
  }

  /**
   * One invocation per pixel: with `MV_ELECTRON_SHADER_DISPATCH_SIZE` 1 the
   * grid is width by height, and the pixel at row-major index i has
   * coordinates (i % width, i / width). When the mask is the shader's hit test
   * (the pixel under the rounded gun, or on the beam segment), the dispatched
   * texture holds exactly what Shader.Pixel stores at each pixel. `previous`
   * is the value of the never-uploaded previous-position uniform, (0, 0) at
   * run time.
   */
  lemma DispatchRunsPixel(r: Renderer, hit: seq<bool>, secondary: CColor.Color, power: real,
                          rx: int, ry: int, previous: Vec, position: Vec,
                          m: seq<real>, d: seq<real>, d1: seq<real>, d2: seq<real>)
    requires Valid(r) && r.width > 0 && |hit| == r.width * r.height
    requires |m| == |hit| && |d| == |hit| && |d1| == |hit| && |d2| == |hit|
    requires forall i :: 0 <= i < |hit| ==> IsMagnitude(PixelOffset(i % r.width, i / r.width, rx, ry), m[i])
    requires forall i :: 0 <= i < |hit| ==>
      BetweenWitnesses(Vec((i % r.width) as real, (i / r.width) as real), previous, position, d[i], d1[i], d2[i])
    requires forall i :: 0 <= i < |hit| ==>
      hit[i] == ((i % r.width == rx && i / r.width == ry)
                 || IsBetween(Vec((i % r.width) as real, (i / r.width) as real), previous, position, d[i], d1[i], d2[i]))
    ensures forall i :: 0 <= i < |hit| ==>
      Dispatch(r, hit, secondary, power).textures[r.current][i]
      == Pixel(r.textures[r.current][i], i % r.width, i / r.width, rx, ry, previous, position,
               Upload(secondary), power, m[i], d[i], d1[i], d2[i])
  {
  }
}
