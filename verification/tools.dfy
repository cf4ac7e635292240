/** The third-party compilers and renderers the preview pipeline calls. Each is
    opaque: it maps its input to an output, or to `None` when it throws. */
module Tools {
  import opened Wrappers

  datatype Toolchain = Toolchain(
    /** `pug.render` */
    pug: string -> Option<string>,
    /** `markdown-it`'s `render` */
    markdown: string -> Option<string>,
    /** `sass.renderSync({data, indentedSyntax})`, its `css` decoded to text */
    sass: (string, bool) -> Option<string>,
    /** `less.render(content)`, its `css` */
    less: string -> Option<string>,
    /** `typescript.transpile(content, options)`; the flag says whether
        `jsx: React` is set in the options */
    transpile: (string, bool) -> Option<string>)
}
