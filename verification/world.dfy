/** What the loaders get from outside the library: file contents, the C
library's number conversions and the image decoder behind the Texture class.
 */
module World {
  import opened Results

  /** The loaders' environment.
      - `files`: the lines of every file that can be opened (std::getline
        splits at '\n'; a path absent from the map cannot be opened);
      - `atof`, `atoi`: the C library conversions, left uninterpreted;
      - `decodes`: whether the Texture constructor accepts the image at a
        path (libpng decoding and GL upload are not modelled). */
  datatype Env = Env(
    files: map<string, seq<string>>,
    atof: string -> real,
    atoi: string -> int,
    decodes: string -> bool)

  /** Open a file: its lines, or CannotOpen when `is_open()` would be false. */
  function Open(env: Env, path: string): (r: Result<seq<string>>)
    ensures r.Ok? <==> path in env.files
    ensures r.Ok? ==> r.value == env.files[path]
    ensures r.Err? ==> r.error == CannotOpen(path)
  {
    if path in env.files then Ok(env.files[path]) else Err(CannotOpen(path))
  }
}
