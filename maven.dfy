/** The two pieces of the Maven plugin API that the goal's behaviour is observed through. */
module Maven {
  import opened Wrappers

  /** `org.apache.maven.plugin.MojoExecutionException`: a message and, optionally, the
      description of the exception it wraps. */
  datatype MojoExecutionException = MojoExecutionException(message: string, cause: Option<string>)

  /** One call on the plugin's `Log` sink. */
  datatype LogEvent = Warn(text: string) | Error(text: string)
}
